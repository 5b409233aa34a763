/**
 * The redirect login: a first request parks an entry under a fresh state, the callback
 * takes it out once and exchanges the code. Logins and callbacks interleave freely.
 */
module OidcLogin {
  import opened Common

  datatype Entry = Entry(state: string, nonce: string, codeVerifier: string, redirectUri: string,
                         returnTo: Option<string>)

  datatype Query = Query(state: Option<string>, code: Option<string>, error: Option<string>,
                         errorDescription: Option<string>)

  datatype Config = Config(redirectUri: string, successRedirect: Option<string>, hasHook: bool)

  datatype Tokens = Tokens(sub: Option<string>, expiresIn: int)

  /** How the token exchange settles; a refusal tells its reason only when it is an `AuthError`. */
  datatype Exchanged = Granted(tokens: Tokens) | Unreachable | Refused(reason: Option<string>)

  /** `Raised` is a rejected promise: an error of the success hook, or of the store. */
  datatype Outcome =
    | Redirect(url: string)
    | Json(sub: Option<string>, expiresIn: int)
    | Failure(status: int, error: string, message: string)
    | Raised

  /** A present, non-empty string. */
  predicate Truthy(s: Option<string>) {
    s.Some? && s.value != ""
  }

  function AuthenticationFailed(message: string): Outcome {
    Failure(401, "authentication_failed", message)
  }

  /** The reply to a callback that is turned away before the store is asked. */
  function TurnedAway(q: Query): Option<Outcome> {
    if Truthy(q.error) then
      Some(AuthenticationFailed(
             if Truthy(q.errorDescription) then q.error.value + ": " + q.errorDescription.value else q.error.value))
    else if !Truthy(q.state) || !Truthy(q.code) then
      Some(Failure(400, "invalid_request", "callback is missing the state or code query parameter"))
    else None
  }

  function ExchangeFailure(result: Exchanged): Outcome
    requires !result.Granted?
  {
    match result
    case Unreachable => Failure(503, "oidc_unavailable", "the AXIAM token endpoint is unreachable")
    case Refused(reason) => AuthenticationFailed(if reason.Some? then reason.value else "token exchange failed")
  }

  /** Where the browser goes after a login; an empty `successRedirect` does not fall back to `returnTo`. */
  function Welcome(cfg: Config, entry: Entry, tokens: Tokens): Outcome {
    var destination := if cfg.successRedirect.Some? then cfg.successRedirect else entry.returnTo;
    if Truthy(destination) then Redirect(destination.value) else Json(tokens.sub, tokens.expiresIn)
  }

  // ---------- The transition system ----------

  datatype ExchangeCall = ExchangeCall(callback: nat, code: string, codeVerifier: string, nonce: string,
                                       redirectUri: string)

  datatype HookCall = HookCall(callback: nat, tokens: Tokens, entry: Entry)

  /** One callback with its history. */
  datatype Callback = Callback(query: Query, entry: Option<Entry>, exchanged: Option<Exchanged>,
                               outcome: Option<Outcome>)

  /** How the store takes an entry; a rejected `save` may have kept it or not. */
  datatype Saving = Resolves | Rejects(kept: bool)

  /** How the store answers a `consume`; a rejected one may have removed the entry or not. */
  datatype Consuming = Answers | Fails(removed: bool)

  /** `dropped` are the states that the store lost other than to a callback. */
  datatype State = State(
    store: map<string, Entry>,
    saved: seq<Entry>,
    dropped: set<string>,
    callbacks: seq<Callback>,
    exchanges: seq<ExchangeCall>,
    hooks: seq<HookCall>)

  datatype Step =
    | Save(state: string, nonce: string, codeVerifier: string, returnTo: Option<string>)
    | Expire(state: string)
    | Arrive(query: Query)
    | ConsumeRejects(query: Query, removed: bool)
    | ExchangeSettles(callback: nat, result: Exchanged)
    | HookSettles(callback: nat, ok: bool)

  const INIT := State(map[], [], {}, [], [], [])

  predicate FreshState(s: State, state: string) {
    forall i :: 0 <= i < |s.saved| ==> s.saved[i].state != state
  }

  predicate Awaiting(s: State, c: nat) {
    c < |s.callbacks| && s.callbacks[c].entry.Some? && s.callbacks[c].outcome.None?
  }

  predicate Enabled(s: State, step: Step) {
    match step
    case Save(state, _, _, _) => FreshState(s, state)
    case Expire(_) => true
    case Arrive(_) => true
    case ConsumeRejects(q, _) => TurnedAway(q).None?
    case ExchangeSettles(c, _) => Awaiting(s, c) && s.callbacks[c].exchanged.None?
    case HookSettles(c, _) =>
      Awaiting(s, c) && s.callbacks[c].exchanged.Some? && s.callbacks[c].exchanged.value.Granted?
  }

  function AfterArrive(s: State, q: Query): State {
    var id := |s.callbacks|;
    if TurnedAway(q).Some? then
      s.(callbacks := s.callbacks + [Callback(q, None, None, TurnedAway(q))])
    else if q.state.value !in s.store then
      s.(callbacks := s.callbacks +
         [Callback(q, None, None, Some(AuthenticationFailed("unknown, expired, or already-used login state")))])
    else
      var entry := s.store[q.state.value];
      s.(store := s.store - {q.state.value},
         callbacks := s.callbacks + [Callback(q, Some(entry), None, None)],
         exchanges := s.exchanges +
           [ExchangeCall(id, q.code.value, entry.codeVerifier, entry.nonce, entry.redirectUri)])
  }

  /** The store loses the entry, if it has it. */
  function AfterDrop(s: State, state: string): State {
    s.(store := s.store - {state}, dropped := if state in s.store then s.dropped + {state} else s.dropped)
  }

  function Take(cfg: Config, s: State, step: Step): State
    requires Enabled(s, step)
  {
    match step
    case Save(state, nonce, codeVerifier, returnTo) =>
      var entry := Entry(state, nonce, codeVerifier, cfg.redirectUri, returnTo);
      s.(store := s.store[state := entry], saved := s.saved + [entry])
    case Expire(state) => AfterDrop(s, state)
    case Arrive(q) => AfterArrive(s, q)
    case ConsumeRejects(q, removed) =>
      var left := if removed then AfterDrop(s, q.state.value) else s;
      left.(callbacks := left.callbacks + [Callback(q, None, None, Some(Raised))])
    case ExchangeSettles(c, result) =>
      var call := s.callbacks[c].(exchanged := Some(result));
      if !result.Granted? then
        s.(callbacks := s.callbacks[c := call.(outcome := Some(ExchangeFailure(result)))])
      else
        s.(callbacks := s.callbacks[c := call],
           hooks := if cfg.hasHook then s.hooks + [HookCall(c, result.tokens, call.entry.value)] else s.hooks)
    case HookSettles(c, ok) =>
      var call := s.callbacks[c];
      s.(callbacks := s.callbacks[c := call.(outcome := Some(
        if !ok && cfg.hasHook then Raised else Welcome(cfg, call.entry.value, call.exchanged.value.tokens)))])
  }

  predicate Possible(cfg: Config, steps: seq<Step>)
    decreases |steps|, 0
  {
    steps == [] || (Possible(cfg, steps[..|steps| - 1]) &&
                    Enabled(Run(cfg, steps[..|steps| - 1]), steps[|steps| - 1]))
  }

  function Run(cfg: Config, steps: seq<Step>): State
    requires Possible(cfg, steps)
    decreases |steps|, 1
  {
    if steps == [] then INIT else Take(cfg, Run(cfg, steps[..|steps| - 1]), steps[|steps| - 1])
  }

  // ---------- The relying party, updated in place ----------

  class RelyingParty {
    const cfg: Config
    var store: map<string, Entry>
    var callbacks: seq<Callback>
    var exchanges: seq<ExchangeCall>
    var hooks: seq<HookCall>
    ghost var saved: seq<Entry>
    ghost var dropped: set<string>

    ghost function Now(): State
      reads this
    {
      State(store, saved, dropped, callbacks, exchanges, hooks)
    }

    constructor (cfg: Config)
      ensures this.cfg == cfg && Now() == INIT
    {
      this.cfg := cfg;
      store, callbacks, exchanges, hooks := map[], [], [], [];
      saved, dropped := [], {};
    }

    /** The login request: `request` is what discovery and `oidcBegin` gave, if they did not throw. */
    method BeginOidcLogin(request: Option<(string, string, string, string)>, saving: Saving,
                          returnTo: Option<string>)
      returns (outcome: Outcome)
      requires request.Some? ==> FreshState(Now(), request.value.0)
      modifies this
      ensures outcome == if request.Some? && saving.Resolves? then Redirect(request.value.3)
                         else Failure(503, "oidc_unavailable", "could not start the OIDC login flow")
      ensures if request.Some? && (saving.Resolves? || saving.kept) then
                var (state, nonce, verifier, _) := request.value;
                Now() == Take(cfg, old(Now()), Save(state, nonce, verifier, returnTo))
              else Now() == old(Now())
    {
      var unavailable := Failure(503, "oidc_unavailable", "could not start the OIDC login flow");
      if request.None? {
        return unavailable;
      }
      var (state, nonce, verifier, url) := request.value;
      if saving.Resolves? || saving.kept {
        var entry := Entry(state, nonce, verifier, cfg.redirectUri, returnTo);
        store, saved := store[state := entry], saved + [entry];
      }
      if saving.Rejects? {
        return unavailable;
      }
      return Redirect(url);
    }

    /** A callback up to the awaited exchange, or to its early reply. */
    method CompleteOidcLogin(q: Query, consuming: Consuming)
      modifies this
      ensures Now() == Take(cfg, old(Now()), if TurnedAway(q).None? && consuming.Fails?
                                             then ConsumeRejects(q, consuming.removed) else Arrive(q))
    {
      if Truthy(q.error) {
        var message := if Truthy(q.errorDescription) then q.error.value + ": " + q.errorDescription.value
                       else q.error.value;
        Answer(q, AuthenticationFailed(message));
        return;
      }
      if !Truthy(q.state) || !Truthy(q.code) {
        Answer(q, Failure(400, "invalid_request", "callback is missing the state or code query parameter"));
        return;
      }
      if consuming.Fails? {
        if consuming.removed {
          DropEntry(q.state.value);
        }
        Answer(q, Raised);
        return;
      }
      var entry := Consume(q.state.value);
      if entry.None? {
        Answer(q, AuthenticationFailed("unknown, expired, or already-used login state"));
        return;
      }
      exchanges := exchanges +
        [ExchangeCall(|callbacks|, q.code.value, entry.value.codeVerifier, entry.value.nonce, entry.value.redirectUri)];
      callbacks := callbacks + [Callback(q, entry, None, None)];
    }

    /** A callback that ends here. */
    method Answer(q: Query, reply: Outcome)
      modifies this`callbacks
      ensures callbacks == old(callbacks) + [Callback(q, None, None, Some(reply))]
    {
      callbacks := callbacks + [Callback(q, None, None, Some(reply))];
    }

    /** The store loses an entry that nobody received: it expired, or a `consume` failed after removing it. */
    method DropEntry(state: string)
      modifies this`store, this`dropped
      ensures Now() == AfterDrop(old(Now()), state)
    {
      if state in store {
        dropped := dropped + {state};
      }
      store := store - {state};
    }

    /** The store's atomic fetch-and-remove. */
    method Consume(state: string) returns (entry: Option<Entry>)
      modifies this`store
      ensures entry == if state in old(store) then Some(old(store)[state]) else None
      ensures store == old(store) - {state}
    {
      if state !in store {
        return None;
      }
      entry := Some(store[state]);
      store := store - {state};
    }

    method HearExchange(c: nat, result: Exchanged)
      requires Enabled(Now(), ExchangeSettles(c, result))
      modifies this
      ensures Now() == Take(cfg, old(Now()), ExchangeSettles(c, result))
    {
      var call := callbacks[c].(exchanged := Some(result));
      if result.Unreachable? {
        callbacks := callbacks[c := call.(outcome :=
          Some(Failure(503, "oidc_unavailable", "the AXIAM token endpoint is unreachable")))];
        return;
      }
      if result.Refused? {
        var reason := if result.reason.Some? then result.reason.value else "token exchange failed";
        callbacks := callbacks[c := call.(outcome := Some(AuthenticationFailed(reason)))];
        return;
      }
      callbacks := callbacks[c := call];
      if cfg.hasHook {
        hooks := hooks + [HookCall(c, result.tokens, call.entry.value)];
      }
    }

    method HearHook(c: nat, ok: bool)
      requires Enabled(Now(), HookSettles(c, ok))
      modifies this
      ensures Now() == Take(cfg, old(Now()), HookSettles(c, ok))
    {
      var call := callbacks[c];
      var entry, tokens := call.entry.value, call.exchanged.value.tokens;
      if cfg.hasHook && !ok {
        callbacks := callbacks[c := call.(outcome := Some(Raised))];
        return;
      }
      var destination := if cfg.successRedirect.Some? then cfg.successRedirect else entry.returnTo;
      var reply := if Truthy(destination) then Redirect(destination.value) else Json(tokens.sub, tokens.expiresIn);
      callbacks := callbacks[c := call.(outcome := Some(reply))];
    }
  }

  // ---------- What every interleaving keeps ----------

  ghost predicate Used(s: State, state: string) {
    exists c :: 0 <= c < |s.callbacks| && s.callbacks[c].entry.Some? && s.callbacks[c].query.state == Some(state)
  }

  /** The entry a login saved, under its own state and with the configured redirect URI. */
  ghost predicate SavedAs(s: State, state: string, entry: Entry) {
    exists i :: 0 <= i < |s.saved| && s.saved[i] == entry && entry.state == state
  }

  /** The store holds exactly the saved logins that were neither used nor dropped. */
  ghost predicate StoreKeys(s: State) {
    && (forall state :: state in s.store <==>
          !FreshState(s, state) && !Used(s, state) && state !in s.dropped)
    && (forall state :: state in s.dropped || Used(s, state) ==> !FreshState(s, state))
  }

  ghost predicate StoreEntries(s: State) {
    forall state :: state in s.store ==> SavedAs(s, state, s.store[state])
  }

  predicate SavesUnderOwnUri(cfg: Config, s: State) {
    forall i :: 0 <= i < |s.saved| ==> s.saved[i].redirectUri == cfg.redirectUri
  }

  predicate SavedOnce(s: State) {
    forall i, j :: 0 <= i < j < |s.saved| ==> s.saved[i].state != s.saved[j].state
  }

  ghost predicate StoreInv(cfg: Config, s: State) {
    StoreKeys(s) && StoreEntries(s) && SavesUnderOwnUri(cfg, s) && SavedOnce(s)
  }

  /** No two callbacks used the same state, and each used one found what was saved under it. */
  ghost predicate UseInv(s: State) {
    && (forall c :: 0 <= c < |s.callbacks| && s.callbacks[c].entry.Some? ==>
          && TurnedAway(s.callbacks[c].query).None?
          && SavedAs(s, s.callbacks[c].query.state.value, s.callbacks[c].entry.value))
    && (forall c, d :: 0 <= c < d < |s.callbacks| && s.callbacks[c].entry.Some? && s.callbacks[d].entry.Some? ==>
          s.callbacks[c].query.state != s.callbacks[d].query.state)
  }

  predicate ExchangeOf(s: State, e: ExchangeCall) {
    && e.callback < |s.callbacks|
    && var call := s.callbacks[e.callback];
       && call.entry.Some? && call.query.code == Some(e.code)
       && e.codeVerifier == call.entry.value.codeVerifier
       && e.nonce == call.entry.value.nonce
       && e.redirectUri == call.entry.value.redirectUri
  }

  predicate HookOf(s: State, h: HookCall) {
    && h.callback < |s.callbacks|
    && s.callbacks[h.callback].exchanged == Some(Granted(h.tokens))
    && s.callbacks[h.callback].entry == Some(h.entry)
  }

  predicate EndsAtOnce(reply: Outcome) {
    reply.Raised? || (reply.Failure? && (reply.status == 400 || reply.status == 401))
  }

  predicate ReplyOf(cfg: Config, call: Callback) {
    && (call.entry.None? ==> call.exchanged.None? && call.outcome.Some? && EndsAtOnce(call.outcome.value))
    && (call.exchanged.Some? && !call.exchanged.value.Granted? ==>
          call.outcome == Some(ExchangeFailure(call.exchanged.value)))
    && (call.entry.Some? && call.exchanged.None? ==> call.outcome.None?)
    && (call.exchanged.Some? && call.exchanged.value.Granted? && call.outcome.Some? ==>
          || call.outcome.value == Raised
          || call.outcome.value == Welcome(cfg, call.entry.value, call.exchanged.value.tokens))
  }

  /** With a hook configured, every granted exchange has called it. */
  ghost predicate HookCalled(cfg: Config, s: State, c: nat)
    requires c < |s.callbacks|
  {
    cfg.hasHook && s.callbacks[c].exchanged.Some? && s.callbacks[c].exchanged.value.Granted? ==>
      exists i :: 0 <= i < |s.hooks| && s.hooks[i].callback == c
  }

  ghost predicate CallInv(cfg: Config, s: State) {
    && (forall c :: 0 <= c < |s.callbacks| ==> HookCalled(cfg, s, c))
    && (s.hooks != [] ==> cfg.hasHook)
    && (forall c :: 0 <= c < |s.callbacks| ==> ReplyOf(cfg, s.callbacks[c]))
    && (forall i :: 0 <= i < |s.exchanges| ==> ExchangeOf(s, s.exchanges[i]))
    && (forall i, j :: 0 <= i < j < |s.exchanges| ==> s.exchanges[i].callback < s.exchanges[j].callback)
    && (forall i :: 0 <= i < |s.hooks| ==> HookOf(s, s.hooks[i]))
    && (forall i, j :: 0 <= i < j < |s.hooks| ==> s.hooks[i].callback != s.hooks[j].callback)
  }

  lemma SavingOne(s: State, s': State, entry: Entry)
    requires s'.saved == s.saved + [entry]
    ensures forall state :: FreshState(s', state) <==> FreshState(s, state) && state != entry.state
    ensures forall state, e :: SavedAs(s', state, e) <==>
                               SavedAs(s, state, e) || (e == entry && state == entry.state)
  {
    assert s'.saved[|s.saved|] == entry;
    assert forall i :: 0 <= i < |s.saved| ==> s'.saved[i] == s.saved[i];
  }

  lemma UsingOne(s: State, s': State, call: Callback)
    requires s'.callbacks == s.callbacks + [call]
    ensures forall state :: Used(s', state) <==>
                            Used(s, state) || (call.entry.Some? && call.query.state == Some(state))
  {
    assert s'.callbacks[|s.callbacks|] == call;
    assert forall c :: 0 <= c < |s.callbacks| ==> s'.callbacks[c] == s.callbacks[c];
  }

  /** Settling changes neither which states were used nor with what. */
  ghost predicate SameUses(s: State, s': State) {
    && |s'.callbacks| == |s.callbacks|
    && forall c :: 0 <= c < |s.callbacks| ==>
         s'.callbacks[c].entry == s.callbacks[c].entry && s'.callbacks[c].query == s.callbacks[c].query
  }

  lemma SameUsesSameUsed(s: State, s': State)
    requires SameUses(s, s')
    ensures forall state :: Used(s', state) <==> Used(s, state)
  {
  }

  lemma SameSaved(s: State, s': State)
    requires s'.saved == s.saved
    ensures forall state :: FreshState(s', state) <==> FreshState(s, state)
    ensures forall state, e :: SavedAs(s', state, e) <==> SavedAs(s, state, e)
  {
  }

  lemma SaveKeepsStoreInv(cfg: Config, s: State, s': State, entry: Entry)
    requires StoreInv(cfg, s) && FreshState(s, entry.state) && entry.redirectUri == cfg.redirectUri
    requires s' == s.(store := s.store[entry.state := entry], saved := s.saved + [entry])
    ensures StoreInv(cfg, s')
  {
    SavingOne(s, s', entry);
    SameUsesSameUsed(s, s');
  }

  lemma SaveKeepsUseInv(s: State, s': State, entry: Entry)
    requires UseInv(s) && s'.saved == s.saved + [entry] && s'.callbacks == s.callbacks
    ensures UseInv(s')
  {
    SavingOne(s, s', entry);
  }

  lemma DropKeepsStoreInv(cfg: Config, s: State, s': State, state: string)
    requires StoreInv(cfg, s) && state in s.store
    requires s' == s.(store := s.store - {state}, dropped := s.dropped + {state})
    ensures StoreInv(cfg, s')
  {
    SameSaved(s, s');
    SameUsesSameUsed(s, s');
  }

  lemma SameUsesKeepUseInv(s: State, s': State)
    requires UseInv(s) && s'.saved == s.saved && s'.callbacks == s.callbacks
    ensures UseInv(s')
  {
    SameSaved(s, s');
  }

  lemma DroppingKeepsInv(cfg: Config, s: State, state: string)
    requires Inv(cfg, s)
    ensures Inv(cfg, AfterDrop(s, state))
  {
    var s' := AfterDrop(s, state);
    SameUsesKeepUseInv(s, s');
    SameCallsKeepCallInv(cfg, s, s');
    if state in s.store {
      DropKeepsStoreInv(cfg, s, s', state);
    } else {
      assert s.store - {state} == s.store;
      assert s' == s;
    }
  }

  /** What an arriving callback does to the state, in terms of whether it found an entry. */
  lemma ArriveEffect(s: State, q: Query)
    ensures var s' := AfterArrive(s, q);
            && |s'.callbacks| == |s.callbacks| + 1 && s'.saved == s.saved && s'.dropped == s.dropped
            && var call := s'.callbacks[|s.callbacks|];
               && s'.callbacks == s.callbacks + [call] && call.query == q
               && (call.entry.Some? <==> TurnedAway(q).None? && q.state.value in s.store)
               && (call.entry.Some? ==> call.entry.value == s.store[q.state.value])
               && s'.store == if call.entry.Some? then s.store - {q.state.value} else s.store
  {
  }

  lemma UseShrinksStore(cfg: Config, s: State, s': State, call: Callback)
    requires StoreInv(cfg, s)
    requires s'.callbacks == s.callbacks + [call] && s'.saved == s.saved && s'.dropped == s.dropped
    requires call.entry.Some? ==> call.query.state.Some? && call.query.state.value in s.store
    requires s'.store == if call.entry.Some? then s.store - {call.query.state.value} else s.store
    ensures StoreInv(cfg, s')
  {
    SameSaved(s, s');
    UsingOne(s, s', call);
    assert StoreKeys(s');
  }

  lemma UseKeepsUseInv(cfg: Config, s: State, s': State, call: Callback)
    requires StoreInv(cfg, s) && UseInv(s)
    requires s'.callbacks == s.callbacks + [call] && s'.saved == s.saved
    requires call.entry.Some? ==>
               && TurnedAway(call.query).None? && call.query.state.value in s.store
               && call.entry.value == s.store[call.query.state.value]
    ensures UseInv(s')
  {
    SameSaved(s, s');
    if call.entry.Some? {
      assert !Used(s, call.query.state.value);
    }
  }

  lemma ArriveKeepsInv(cfg: Config, s: State, q: Query)
    requires StoreInv(cfg, s) && UseInv(s)
    ensures StoreInv(cfg, AfterArrive(s, q)) && UseInv(AfterArrive(s, q))
  {
    var s' := AfterArrive(s, q);
    ArriveEffect(s, q);
    UseShrinksStore(cfg, s, s', s'.callbacks[|s.callbacks|]);
    UseKeepsUseInv(cfg, s, s', s'.callbacks[|s.callbacks|]);
  }

  lemma SettledKeepsInv(cfg: Config, s: State, s': State)
    requires StoreInv(cfg, s) && UseInv(s)
    requires SameUses(s, s') && s'.store == s.store && s'.saved == s.saved && s'.dropped == s.dropped
    ensures StoreInv(cfg, s') && UseInv(s')
  {
    SameSaved(s, s');
    SameUsesSameUsed(s, s');
  }

  lemma SettleKeepsUses(cfg: Config, s: State, step: Step)
    requires Enabled(s, step) && (step.ExchangeSettles? || step.HookSettles?)
    ensures var s' := Take(cfg, s, step);
            SameUses(s, s') && s'.store == s.store && s'.saved == s.saved && s'.dropped == s.dropped
  {
  }

  lemma ArriveKeepsCallInv(cfg: Config, s: State, q: Query)
    requires CallInv(cfg, s)
    ensures CallInv(cfg, AfterArrive(s, q))
  {
    var s', k := AfterArrive(s, q), |s.callbacks|;
    ArriveEffect(s, q);
    NewCallFits(cfg, s, q);
    CallsGrow(s, s');
    assert forall i :: 0 <= i < |s.exchanges| ==> ExchangeOf(s, s.exchanges[i]);
    assert forall i :: 0 <= i < |s.hooks| ==> HookOf(s, s.hooks[i]);
    forall c | 0 <= c < |s'.callbacks|
      ensures HookCalled(cfg, s', c) && ReplyOf(cfg, s'.callbacks[c])
    {
      assert c < k ==> HookCalled(cfg, s, c) && s'.callbacks[c] == s.callbacks[c];
    }
  }

  /** The new callback has its reply, or its exchange. */
  lemma NewCallFits(cfg: Config, s: State, q: Query)
    ensures var s', k := AfterArrive(s, q), |s.callbacks|;
            && ReplyOf(cfg, s'.callbacks[k]) && s'.callbacks[k].exchanged.None? && s'.hooks == s.hooks
            && (s'.exchanges == s.exchanges ||
                (|s'.exchanges| == |s.exchanges| + 1 && s'.exchanges[..|s.exchanges|] == s.exchanges
                 && s'.exchanges[|s.exchanges|].callback == k && ExchangeOf(s', s'.exchanges[|s.exchanges|])))
  {
  }

  lemma CallsGrow(s: State, s': State)
    requires s.callbacks <= s'.callbacks
    ensures forall e :: ExchangeOf(s, e) ==> ExchangeOf(s', e)
    ensures forall h :: HookOf(s, h) ==> HookOf(s', h)
  {
  }

  lemma SameCallsKeepCallInv(cfg: Config, s: State, s': State)
    requires CallInv(cfg, s)
    requires s'.callbacks == s.callbacks && s'.exchanges == s.exchanges && s'.hooks == s.hooks
    ensures CallInv(cfg, s')
  {
    CallsGrow(s, s');
    forall c | 0 <= c < |s'.callbacks|
      ensures HookCalled(cfg, s', c)
    {
      assert HookCalled(cfg, s, c);
    }
  }

  /** A callback that ends at once, without entry or exchange, changes nothing for the others. */
  lemma EndedCallKeepsInv(cfg: Config, s: State, call: Callback)
    requires Inv(cfg, s) && call.entry.None? && ReplyOf(cfg, call)
    ensures Inv(cfg, s.(callbacks := s.callbacks + [call]))
  {
    var s' := s.(callbacks := s.callbacks + [call]);
    UseShrinksStore(cfg, s, s', call);
    UseKeepsUseInv(cfg, s, s', call);
    CallsGrow(s, s');
    forall c | 0 <= c < |s'.callbacks|
      ensures HookCalled(cfg, s', c) && ReplyOf(cfg, s'.callbacks[c])
    {
      assert c < |s.callbacks| ==> HookCalled(cfg, s, c) && s'.callbacks[c] == s.callbacks[c];
    }
  }

  lemma SettleKeepsHookCalled(cfg: Config, s: State, step: Step, c: nat)
    requires CallInv(cfg, s) && Enabled(s, step) && (step.ExchangeSettles? || step.HookSettles?)
    requires c < |s.callbacks|
    ensures HookCalled(cfg, Take(cfg, s, step), c)
  {
    var s' := Take(cfg, s, step);
    assert HookCalled(cfg, s, c);
    assert s.hooks <= s'.hooks;
    assert forall i :: 0 <= i < |s.hooks| ==> s'.hooks[i] == s.hooks[i];
    if step.ExchangeSettles? && step.callback == c && step.result.Granted? && cfg.hasHook {
      assert s'.hooks[|s.hooks|].callback == c;
    }
  }

  lemma SettleKeepsCallInv(cfg: Config, s: State, step: Step)
    requires CallInv(cfg, s) && Enabled(s, step) && (step.ExchangeSettles? || step.HookSettles?)
    ensures CallInv(cfg, Take(cfg, s, step))
  {
    var s' := Take(cfg, s, step);
    forall c | 0 <= c < |s'.callbacks|
      ensures HookCalled(cfg, s', c)
    {
      SettleKeepsHookCalled(cfg, s, step, c);
    }
    assert ReplyOf(cfg, s.callbacks[step.callback]);
    forall c | 0 <= c < |s'.callbacks|
      ensures ReplyOf(cfg, s'.callbacks[c])
    {
      assert c != step.callback ==> s'.callbacks[c] == s.callbacks[c] && ReplyOf(cfg, s.callbacks[c]);
    }
    forall i | 0 <= i < |s'.exchanges|
      ensures ExchangeOf(s', s'.exchanges[i])
    {
      assert ExchangeOf(s, s.exchanges[i]);
    }
    forall i | 0 <= i < |s'.hooks|
      ensures HookOf(s', s'.hooks[i])
    {
      assert i < |s.hooks| ==> HookOf(s, s.hooks[i]);
    }
    assert forall i :: 0 <= i < |s.hooks| ==> HookOf(s, s.hooks[i]);
  }

  ghost predicate Inv(cfg: Config, s: State) {
    StoreInv(cfg, s) && UseInv(s) && CallInv(cfg, s)
  }

  lemma RejectionKeepsInv(cfg: Config, s: State, q: Query, removed: bool)
    requires Inv(cfg, s) && TurnedAway(q).None?
    ensures Inv(cfg, Take(cfg, s, ConsumeRejects(q, removed)))
  {
    if removed {
      DroppingKeepsInv(cfg, s, q.state.value);
    }
    EndedCallKeepsInv(cfg, if removed then AfterDrop(s, q.state.value) else s, Callback(q, None, None, Some(Raised)));
  }

  lemma StepKeepsInv(cfg: Config, s: State, step: Step)
    requires Inv(cfg, s) && Enabled(s, step)
    ensures Inv(cfg, Take(cfg, s, step))
  {
    var s' := Take(cfg, s, step);
    match step
    case Save(_, _, _, _) =>
      SaveKeepsStoreInv(cfg, s, s', s'.saved[|s.saved|]);
      SaveKeepsUseInv(s, s', s'.saved[|s.saved|]);
      SameCallsKeepCallInv(cfg, s, s');
    case Expire(state) =>
      DroppingKeepsInv(cfg, s, state);
    case ConsumeRejects(q, removed) =>
      RejectionKeepsInv(cfg, s, q, removed);
    case Arrive(q) =>
      ArriveKeepsInv(cfg, s, q);
      ArriveKeepsCallInv(cfg, s, q);
    case _ =>
      SettleKeepsUses(cfg, s, step);
      SettledKeepsInv(cfg, s, s');
      SettleKeepsCallInv(cfg, s, step);
  }

  lemma InvAtStart(cfg: Config)
    ensures Inv(cfg, INIT)
  {
  }

  lemma {:induction false} InvHolds(cfg: Config, steps: seq<Step>)
    requires Possible(cfg, steps)
    ensures Inv(cfg, Run(cfg, steps))
  {
    if steps == [] {
      InvAtStart(cfg);
    } else {
      InvHolds(cfg, steps[..|steps| - 1]);
      StepKeepsInv(cfg, Run(cfg, steps[..|steps| - 1]), steps[|steps| - 1]);
    }
  }

  // ---------- What a caller may rely on ----------

  /** The one entry that was saved under the state. */
  ghost predicate OnlySave(s: State, state: string, entry: Entry) {
    SavedAs(s, state, entry) && forall other :: SavedAs(s, state, other) ==> other == entry
  }

  /** Every saved entry is what a login step was given, with the configured redirect URI. */
  ghost predicate SavedByStep(cfg: Config, e: Entry, steps: seq<Step>) {
    e.redirectUri == cfg.redirectUri && Save(e.state, e.nonce, e.codeVerifier, e.returnTo) in steps
  }

  /** Where a login ends: at the configured page, else at where it started, else with the subject. */
  predicate WelcomedAs(cfg: Config, returnTo: Option<string>, tokens: Tokens, reply: Outcome) {
    match (cfg.successRedirect, returnTo)
    case (Some(page), _) => reply == if page != "" then Redirect(page) else Json(tokens.sub, tokens.expiresIn)
    case (None, Some(page)) => reply == if page != "" then Redirect(page) else Json(tokens.sub, tokens.expiresIn)
    case (None, None) => reply == Json(tokens.sub, tokens.expiresIn)
  }

  /** The reply to a callback that got as far as an exchange. */
  ghost predicate RepliedAfterExchange(cfg: Config, entry: Entry, result: Exchanged, c: nat, steps: seq<Step>,
                                       reply: Outcome) {
    match result
    case Granted(tokens) =>
      exists ok :: HookSettles(c, ok) in steps &&
        if cfg.hasHook && !ok then reply == Raised else WelcomedAs(cfg, entry.returnTo, tokens, reply)
    case Unreachable => reply == Failure(503, "oidc_unavailable", "the AXIAM token endpoint is unreachable")
    case Refused(Some(reason)) => reply == Failure(401, "authentication_failed", reason)
    case Refused(None) => reply == Failure(401, "authentication_failed", "token exchange failed")
  }

  /** The reply to a callback that did not. */
  ghost predicate RepliedEarly(q: Query, steps: seq<Step>, reply: Outcome) {
    if q.error.Some? && q.error.value != "" then
      var described := q.errorDescription.Some? && q.errorDescription.value != "";
      reply == Failure(401, "authentication_failed",
                       if described then q.error.value + ": " + q.errorDescription.value else q.error.value)
    else if q.state.None? || q.state.value == "" || q.code.None? || q.code.value == "" then
      reply == Failure(400, "invalid_request", "callback is missing the state or code query parameter")
    else
      || reply == Failure(401, "authentication_failed", "unknown, expired, or already-used login state")
      || (reply == Raised && exists removed :: ConsumeRejects(q, removed) in steps)
  }

  ghost predicate Replied(cfg: Config, call: Callback, c: nat, steps: seq<Step>) {
    && (call.entry.None? ==>
          call.exchanged.None? && call.outcome.Some? && RepliedEarly(call.query, steps, call.outcome.value))
    && (call.entry.Some? && call.outcome.Some? ==>
          && call.exchanged.Some?
          && RepliedAfterExchange(cfg, call.entry.value, call.exchanged.value, c, steps, call.outcome.value))
  }

  /** A callback's query, how its exchange settled and what it was told are those of steps. */
  ghost predicate CallTold(cfg: Config, call: Callback, c: nat, steps: seq<Step>) {
    && (Arrive(call.query) in steps || exists removed :: ConsumeRejects(call.query, removed) in steps)
    && (call.exchanged.Some? ==> ExchangeSettles(c, call.exchanged.value) in steps)
    && Replied(cfg, call, c, steps)
  }

  ghost predicate Told(cfg: Config, s: State, steps: seq<Step>) {
    && (forall i :: 0 <= i < |s.saved| ==> SavedByStep(cfg, s.saved[i], steps))
    && (forall c :: 0 <= c < |s.callbacks| ==> CallTold(cfg, s.callbacks[c], c, steps))
  }

  lemma StepIsTold(cfg: Config, s: State, steps: seq<Step>, step: Step)
    requires Told(cfg, s, steps) && Enabled(s, step)
    ensures Told(cfg, Take(cfg, s, step), steps + [step])
  {
    var s', steps' := Take(cfg, s, step), steps + [step];
    assert step in steps' && forall x :: x in steps ==> x in steps';
    forall i: nat | i < |s'.saved|
      ensures SavedByStep(cfg, s'.saved[i], steps')
    {
      assert i < |s.saved| ==> s'.saved[i] == s.saved[i] && SavedByStep(cfg, s.saved[i], steps);
    }
    forall c: nat | c < |s'.callbacks|
      ensures CallTold(cfg, s'.callbacks[c], c, steps')
    {
      CallStaysTold(cfg, s, steps, step, c);
    }
  }

  lemma CallStaysTold(cfg: Config, s: State, steps: seq<Step>, step: Step, c: nat)
    requires Told(cfg, s, steps) && Enabled(s, step) && c < |Take(cfg, s, step).callbacks|
    ensures CallTold(cfg, Take(cfg, s, step).callbacks[c], c, steps + [step])
  {
    if c == |s.callbacks| {
      NewCallIsTold(cfg, s, steps, step);
    } else if (step.ExchangeSettles? || step.HookSettles?) && step.callback == c {
      SettledCallIsTold(cfg, s, steps, step);
    } else {
      assert CallTold(cfg, s.callbacks[c], c, steps) && Take(cfg, s, step).callbacks[c] == s.callbacks[c];
      MoreStepsTellMore(cfg, s.callbacks[c], c, steps, step);
    }
  }

  lemma MoreStepsTellMore(cfg: Config, call: Callback, c: nat, steps: seq<Step>, step: Step)
    requires CallTold(cfg, call, c, steps)
    ensures CallTold(cfg, call, c, steps + [step])
  {
    assert forall x :: x in steps ==> x in steps + [step];
  }

  lemma NewCallIsTold(cfg: Config, s: State, steps: seq<Step>, step: Step)
    requires Enabled(s, step) && |Take(cfg, s, step).callbacks| > |s.callbacks|
    ensures CallTold(cfg, Take(cfg, s, step).callbacks[|s.callbacks|], |s.callbacks|, steps + [step])
  {
    assert step in steps + [step];
    if step.Arrive? {
      ArrivalIsTold(cfg, s, steps + [step], step.query);
    } else {
      assert step.ConsumeRejects?;
      assert Take(cfg, s, step).callbacks[|s.callbacks|] == Callback(step.query, None, None, Some(Raised));
    }
  }

  lemma ArrivalIsTold(cfg: Config, s: State, steps: seq<Step>, q: Query)
    requires Arrive(q) in steps
    ensures CallTold(cfg, AfterArrive(s, q).callbacks[|s.callbacks|], |s.callbacks|, steps)
  {
    TurnedAwayEarly(q, steps);
    var unknown := AuthenticationFailed("unknown, expired, or already-used login state");
    assert TurnedAway(q).None? ==> RepliedEarly(q, steps, unknown);
    var call := AfterArrive(s, q).callbacks[|s.callbacks|];
    assert call.query == q && call.exchanged.None?;
    assert call.outcome == if TurnedAway(q).Some? then TurnedAway(q)
                           else if call.entry.None? then Some(unknown) else None;
  }

  lemma TurnedAwayEarly(q: Query, steps: seq<Step>)
    ensures TurnedAway(q).Some? ==> RepliedEarly(q, steps, TurnedAway(q).value)
  {
  }

  lemma SettledCallIsTold(cfg: Config, s: State, steps: seq<Step>, step: Step)
    requires Told(cfg, s, steps) && Enabled(s, step) && (step.ExchangeSettles? || step.HookSettles?)
    ensures CallTold(cfg, Take(cfg, s, step).callbacks[step.callback], step.callback, steps + [step])
  {
    assert CallTold(cfg, s.callbacks[step.callback], step.callback, steps);
    MoreStepsTellMore(cfg, s.callbacks[step.callback], step.callback, steps, step);
    if step.ExchangeSettles? {
      ExchangeIsTold(cfg, s, steps + [step], step);
    } else {
      HookIsTold(cfg, s, steps + [step], step);
    }
  }

  lemma ExchangeIsTold(cfg: Config, s: State, steps: seq<Step>, step: Step)
    requires Enabled(s, step) && step.ExchangeSettles? && step in steps
    requires CallTold(cfg, s.callbacks[step.callback], step.callback, steps)
    ensures CallTold(cfg, Take(cfg, s, step).callbacks[step.callback], step.callback, steps)
  {
  }

  lemma HookIsTold(cfg: Config, s: State, steps: seq<Step>, step: Step)
    requires Enabled(s, step) && step.HookSettles? && step in steps
    requires CallTold(cfg, s.callbacks[step.callback], step.callback, steps)
    ensures CallTold(cfg, Take(cfg, s, step).callbacks[step.callback], step.callback, steps)
  {
  }

  /** In every interleaving what is kept of logins and callbacks is what the requests said. */
  lemma {:induction false} HistoryIsOfSteps(cfg: Config, steps: seq<Step>)
    requires Possible(cfg, steps)
    ensures Told(cfg, Run(cfg, steps), steps)
  {
    if steps != [] {
      var k := |steps| - 1;
      HistoryIsOfSteps(cfg, steps[..k]);
      StepIsTold(cfg, Run(cfg, steps[..k]), steps[..k], steps[k]);
      assert steps == steps[..k] + [steps[k]];
    }
  }

  /** The queries of the callbacks that came, in order. */
  function Came(steps: seq<Step>): seq<Query> {
    if steps == [] then []
    else
      var last := steps[|steps| - 1];
      Came(steps[..|steps| - 1]) + if last.Arrive? || last.ConsumeRejects? then [last.query] else []
  }

  function QueriesOf(s: State): (queries: seq<Query>)
    ensures |queries| == |s.callbacks|
  {
    seq(|s.callbacks|, c requires 0 <= c < |s.callbacks| => s.callbacks[c].query)
  }

  lemma StepBringsItsQuery(cfg: Config, s: State, step: Step)
    requires Enabled(s, step)
    ensures QueriesOf(Take(cfg, s, step)) ==
            QueriesOf(s) + if step.Arrive? || step.ConsumeRejects? then [step.query] else []
  {
  }

  /** Every callback that came is there, in order, with its query. */
  lemma {:induction false} CallbacksAreOfSteps(cfg: Config, steps: seq<Step>)
    requires Possible(cfg, steps)
    ensures QueriesOf(Run(cfg, steps)) == Came(steps)
  {
    if steps != [] {
      CallbacksAreOfSteps(cfg, steps[..|steps| - 1]);
      StepBringsItsQuery(cfg, Run(cfg, steps[..|steps| - 1]), steps[|steps| - 1]);
    }
  }

  /** What a step was for has been done: the login is saved, the result heard, the callback answered. */
  predicate Done(cfg: Config, s: State, step: Step) {
    match step
    case Save(state, nonce, verifier, returnTo) => Entry(state, nonce, verifier, cfg.redirectUri, returnTo) in s.saved
    case ExchangeSettles(c, result) =>
      && c < |s.callbacks| && s.callbacks[c].exchanged == Some(result)
      && (!result.Granted? ==> s.callbacks[c].outcome.Some?)
    case HookSettles(c, _) => c < |s.callbacks| && s.callbacks[c].outcome.Some?
    case _ => true
  }

  lemma StepIsDone(cfg: Config, s: State, step: Step)
    requires Enabled(s, step)
    ensures Done(cfg, Take(cfg, s, step), step)
  {
    if step.Save? {
      var entry := Entry(step.state, step.nonce, step.codeVerifier, cfg.redirectUri, step.returnTo);
      assert Take(cfg, s, step).saved[|s.saved|] == entry;
    }
  }

  lemma DoneStaysDone(cfg: Config, s: State, step: Step, earlier: Step)
    requires Enabled(s, step) && Done(cfg, s, earlier)
    ensures Done(cfg, Take(cfg, s, step), earlier)
  {
    assert s.saved <= Take(cfg, s, step).saved;
  }

  /** In every interleaving whatever happened has had its effect, and keeps it: nobody waits in vain. */
  lemma {:induction false} EveryStepIsDone(cfg: Config, steps: seq<Step>, i: nat)
    requires Possible(cfg, steps) && i < |steps|
    ensures Done(cfg, Run(cfg, steps), steps[i])
  {
    var k := |steps| - 1;
    if i == k {
      StepIsDone(cfg, Run(cfg, steps[..k]), steps[k]);
    } else {
      EveryStepIsDone(cfg, steps[..k], i);
      DoneStaysDone(cfg, Run(cfg, steps[..k]), steps[k], steps[i]);
    }
  }

  /** The exchange of this callback uses what a login request with its state was given. */
  ghost predicate ExchangesLoginOf(cfg: Config, q: Query, e: ExchangeCall, steps: seq<Step>) {
    && q.state.Some? && q.state.value != "" && q.code == Some(e.code)
    && e.redirectUri == cfg.redirectUri
    && exists returnTo :: Save(q.state.value, e.nonce, e.codeVerifier, returnTo) in steps
  }

  /**
   * In every interleaving an exchange carries the verifier and nonce that a login request of the
   * callback's state was given, the callback's code and the configured redirect URI; and no other login
   * was saved under that state.
   */
  lemma EachExchangeIsOfASavedLogin(cfg: Config, steps: seq<Step>, i: nat)
    requires Possible(cfg, steps) && i < |Run(cfg, steps).exchanges|
    ensures var s := Run(cfg, steps);
            var e := s.exchanges[i];
            && e.callback < |s.callbacks|
            && var q := s.callbacks[e.callback].query;
               && ExchangesLoginOf(cfg, q, e, steps)
               && exists entry :: OnlySave(s, q.state.value, entry) &&
                    e.nonce == entry.nonce && e.codeVerifier == entry.codeVerifier
  {
    InvHolds(cfg, steps);
    HistoryIsOfSteps(cfg, steps);
    ExchangeHasItsLogin(cfg, Run(cfg, steps), Run(cfg, steps).exchanges[i], steps);
  }

  lemma ExchangeHasItsLogin(cfg: Config, s: State, e: ExchangeCall, steps: seq<Step>)
    requires StoreInv(cfg, s) && UseInv(s) && ExchangeOf(s, e) && Told(cfg, s, steps)
    ensures var q := s.callbacks[e.callback].query;
            && ExchangesLoginOf(cfg, q, e, steps)
            && exists entry :: OnlySave(s, q.state.value, entry) &&
                 e.nonce == entry.nonce && e.codeVerifier == entry.codeVerifier
  {
    var call := s.callbacks[e.callback];
    var state := call.query.state.value;
    assert SavedAs(s, state, call.entry.value);
    assert OnlySave(s, state, call.entry.value);
    var i :| 0 <= i < |s.saved| && s.saved[i] == call.entry.value;
    assert SavedByStep(cfg, s.saved[i], steps);
  }

  /** No two exchanges belong to the same saved login. */
  lemma EachLoginIsExchangedAtMostOnce(cfg: Config, steps: seq<Step>, i: nat, j: nat)
    requires Possible(cfg, steps) && i < j < |Run(cfg, steps).exchanges|
    ensures var s := Run(cfg, steps);
            && s.exchanges[i].callback < s.exchanges[j].callback < |s.callbacks|
            && s.callbacks[s.exchanges[i].callback].query.state != s.callbacks[s.exchanges[j].callback].query.state
  {
    InvHolds(cfg, steps);
    var s := Run(cfg, steps);
    assert ExchangeOf(s, s.exchanges[i]) && ExchangeOf(s, s.exchanges[j]);
  }

  /** The hook runs at most once for a callback, only after its exchange was granted, with that result and entry. */
  lemma HookOnlyAfterGrant(cfg: Config, steps: seq<Step>, i: nat, j: nat)
    requires Possible(cfg, steps) && i < |Run(cfg, steps).hooks| && j < |Run(cfg, steps).hooks|
    ensures var s := Run(cfg, steps);
            && HookOf(s, s.hooks[i])
            && (s.hooks[i].callback == s.hooks[j].callback <==> i == j)
            && s.callbacks[s.hooks[i].callback].query.state == Some(s.hooks[i].entry.state)
  {
    InvHolds(cfg, steps);
    var s := Run(cfg, steps);
    assert HookOf(s, s.hooks[i]) && HookOf(s, s.hooks[j]);
    assert TurnedAway(s.callbacks[s.hooks[i].callback].query).None?;
    assert SavedAs(s, s.callbacks[s.hooks[i].callback].query.state.value, s.hooks[i].entry);
  }

  /** A usable callback whose login is still to be completed. */
  ghost predicate FindsLogin(s: State, q: Query) {
    && (q.error.None? || q.error.value == "")
    && q.state.Some? && q.state.value != "" && q.code.Some? && q.code.value != ""
    && !FreshState(s, q.state.value) && !Used(s, q.state.value) && q.state.value !in s.dropped
  }

  ghost predicate ExchangedIff(s: State, q: Query) {
    var s' := AfterArrive(s, q);
    && (|s'.exchanges| == |s.exchanges| + 1 <==> FindsLogin(s, q))
    && (!FindsLogin(s, q) ==> s'.exchanges == s.exchanges && s'.store == s.store && s'.hooks == s.hooks)
    && (FindsLogin(s, q) ==> q.state.value in s.store && s'.store == s.store - {q.state.value})
  }

  lemma KnownStateIff(cfg: Config, s: State, q: Query)
    requires StoreKeys(s)
    ensures ExchangedIff(s, q)
  {
  }

  /**
   * A callback reaches the exchange exactly when it carries a state and a code and no error, and its
   * state was saved, not used before and not dropped; otherwise store and exchanges stay as they are.
   */
  lemma ReachesExchangeIff(cfg: Config, steps: seq<Step>, q: Query)
    requires Possible(cfg, steps)
    ensures ExchangedIff(Run(cfg, steps), q)
  {
    InvHolds(cfg, steps);
    KnownStateIff(cfg, Run(cfg, steps), q);
  }

  /** The reply to a callback that arrives now, if it gets one before any exchange. */
  function EarlyReply(s: State, q: Query): Option<Outcome> {
    AfterArrive(s, q).callbacks[|s.callbacks|].outcome
  }

  ghost predicate RefusedAlike(s: State, s': State, q: Query) {
    && EarlyReply(s, q) == EarlyReply(s', q)
    && EarlyReply(s, q).Some? && EarlyReply(s, q).value.Failure?
    && EarlyReply(s, q).value.status ==
       if q.error.Some? && q.error.value != "" then 401
       else if q.state.None? || q.state.value == "" || q.code.None? || q.code.value == "" then 400
       else 401
  }

  lemma RefusedByItsQuery(s: State, q: Query)
    requires StoreKeys(s) && !FindsLogin(s, q)
    ensures EarlyReply(s, q) ==
            if TurnedAway(q).Some? then TurnedAway(q)
            else Some(AuthenticationFailed("unknown, expired, or already-used login state"))
  {
    if TurnedAway(q).None? {
      assert q.state.value !in s.store;
    }
  }

  lemma BothRefusedByTheQuery(s: State, s': State, q: Query)
    requires StoreKeys(s) && StoreKeys(s') && !FindsLogin(s, q) && !FindsLogin(s', q)
    ensures RefusedAlike(s, s', q)
  {
    RefusedByItsQuery(s, q);
    RefusedByItsQuery(s', q);
  }

  /**
   * A state that was never saved, one already used and one that expired get the same reply: what a
   * refused callback is told depends on its own query alone.
   */
  lemma RefusalsAreIndistinguishable(cfg: Config, steps: seq<Step>, others: seq<Step>, q: Query)
    requires Possible(cfg, steps) && Possible(cfg, others)
    requires !FindsLogin(Run(cfg, steps), q) && !FindsLogin(Run(cfg, others), q)
    ensures RefusedAlike(Run(cfg, steps), Run(cfg, others), q)
  {
    InvHolds(cfg, steps);
    InvHolds(cfg, others);
    BothRefusedByTheQuery(Run(cfg, steps), Run(cfg, others), q);
  }

  /** A callback is answered 503 exactly when the token endpoint could not be reached. */
  lemma UnavailableIffUnreachable(cfg: Config, steps: seq<Step>, c: nat)
    requires Possible(cfg, steps) && c < |Run(cfg, steps).callbacks|
    ensures var call := Run(cfg, steps).callbacks[c];
            (call.outcome.Some? && call.outcome.value.Failure? && call.outcome.value.status == 503)
            <==> call.exchanged == Some(Unreachable)
  {
    InvHolds(cfg, steps);
    assert ReplyOf(cfg, Run(cfg, steps).callbacks[c]);
  }

  /** What each callback is told, in every interleaving. */
  lemma RepliesInPlainTerms(cfg: Config, steps: seq<Step>, c: nat)
    requires Possible(cfg, steps) && c < |Run(cfg, steps).callbacks|
    ensures Replied(cfg, Run(cfg, steps).callbacks[c], c, steps)
  {
    HistoryIsOfSteps(cfg, steps);
    assert CallTold(cfg, Run(cfg, steps).callbacks[c], c, steps);
  }

  /** What the world may do next: anything, but a state is drawn once, and an answer comes once. */
  predicate MayCome(s: State, next: Step) {
    match next
    case Save(state, _, _, _) => forall i :: 0 <= i < |s.saved| ==> s.saved[i].state != state
    case Expire(_) => true
    case Arrive(_) => true
    case ConsumeRejects(q, _) =>
      && (q.error.None? || q.error.value == "")
      && q.state.Some? && q.state.value != "" && q.code.Some? && q.code.value != ""
    case ExchangeSettles(c, _) =>
      c < |s.callbacks| && s.callbacks[c].outcome.None? && s.callbacks[c].exchanged.None?
    case HookSettles(c, _) =>
      c < |s.callbacks| && s.callbacks[c].outcome.None? && s.callbacks[c].exchanged.Some?
  }

  /** Nothing ever blocks: whatever may come next is taken. */
  lemma NothingBlocks(cfg: Config, steps: seq<Step>, next: Step)
    requires Possible(cfg, steps) && MayCome(Run(cfg, steps), next)
    ensures Possible(cfg, steps + [next])
  {
    InvHolds(cfg, steps);
    assert (steps + [next])[..|steps|] == steps;
    AnswersAreAwaited(cfg, Run(cfg, steps), next);
  }

  lemma AnswersAreAwaited(cfg: Config, s: State, next: Step)
    requires CallInv(cfg, s) && MayCome(s, next)
    ensures Enabled(s, next)
  {
    if next.ExchangeSettles? || next.HookSettles? {
      assert ReplyOf(cfg, s.callbacks[next.callback]);
    }
  }

  /** A login is only ever reported as successful after the exchange of an entry saved under the callback's state. */
  lemma SuccessIsProven(cfg: Config, steps: seq<Step>, c: nat)
    requires Possible(cfg, steps) && c < |Run(cfg, steps).callbacks|
    ensures var s := Run(cfg, steps);
            var call := s.callbacks[c];
            call.outcome.Some? && (call.outcome.value.Redirect? || call.outcome.value.Json?) ==>
              && call.exchanged.Some? && call.exchanged.value.Granted?
              && call.entry.Some? && Truthy(call.query.state)
              && SavedAs(s, call.query.state.value, call.entry.value)
              && call.outcome.value == Welcome(cfg, call.entry.value, call.exchanged.value.tokens)
              && (cfg.hasHook ==> exists i :: 0 <= i < |s.hooks| && s.hooks[i].callback == c)
  {
    InvHolds(cfg, steps);
    var s := Run(cfg, steps);
    assert ReplyOf(cfg, s.callbacks[c]) && HookCalled(cfg, s, c);
  }
}
