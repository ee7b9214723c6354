/**
 * The two-level cache of the Vault credential provider
 * (`linux_net/plugins/credentials/vault_kv/__init__.py`, `_read_secret`).
 *
 * Any number of processes, each with its own first level, share a second level in Redis, while
 * Vault changes arbitrarily.  A call is a sequence of steps, interleaved with the steps of other
 * calls and with the passing of time.
 */
module VaultCache {
  import opened Numerals
  import opened Types

  type Proc = nat
  type CallId = nat
  type Data = string

  // Versions are validated to be at least 1.
  type Version = n: nat | n >= 1 witness 1

  // `params`: what a secret is read by.
  datatype Ref = Ref(namespace: Option<string>, mount: string, path: string, version: Option<Version>)

  // A secret together with the moment Vault held it.  The code only passes the data on; the moment
  // is kept so that staleness can be stated.
  datatype Secret = Secret(data: Data, held: real)

  datatype Entry = Entry(expires: real, secret: Secret)

  type History = imap<(Ref, real), Data>

  // The configured TTL, the longest time from an answer of Vault or Redis to the last use of that
  // answer, and what Vault held when.
  datatype World = World(ttl: nat, lag: real, vault: History)

  const L1_TTL: real := 10.0

  // What Vault is asked for: an empty namespace is no namespace.
  function Location(r: Ref): Ref {
    if r.namespace == Some("") then r.(namespace := None) else r
  }

  /** Two references lead to the same secret exactly when they agree, no namespace counting as an empty one. */
  lemma LocationExactly(q: Ref, r: Ref)
    ensures Location(q) == Location(r) <==>
            && q.mount == r.mount && q.path == r.path && q.version == r.version
            && (q.namespace == r.namespace
                || (q.namespace in {None, Some("")} && r.namespace in {None, Some("")}))
    ensures q.namespace != Some("") ==> Location(q) == q
  {
    assert q == r <==> q.namespace == r.namespace && q.mount == r.mount && q.path == r.path && q.version == r.version;
  }

  // ---------- Keys ----------

  function Ns(r: Ref): string {
    if r.namespace.None? || r.namespace.value == "" then "default" else r.namespace.value
  }

  function Ver(r: Ref): string {
    if r.version.None? then "latest" else Decimal(r.version.value)
  }

  function Colon(a: string, b: string): string {
    a + ":" + b
  }

  // `redis_key`
  function Key(r: Ref): string {
    "linux_net:cache:vault:" + Colon(Ns(r), Colon(r.mount, Colon(r.path, Ver(r))))
  }

  // ---------- The caches ----------

  function Hit<K>(cache: map<K, Entry>, key: K, now: real): Option<Secret> {
    if key in cache && cache[key].expires > now then Some(cache[key].secret) else None
  }

  function Put<K>(cache: map<K, Entry>, key: K, now: real, ttl: real, secret: Secret): map<K, Entry> {
    cache[key := Entry(now + ttl, secret)]
  }

  // ---------- Calls ----------

  datatype Call =
    | AskingL2(proc: Proc, ref: Ref)
    | AskingVault(proc: Proc, ref: Ref)
    | FromL2(proc: Proc, ref: Ref, secret: Secret, since: real)
    | FromVault(proc: Proc, ref: Ref, secret: Secret)
    | Kept(proc: Proc, ref: Ref, secret: Secret)
    | Done(proc: Proc, ref: Ref, secret: Secret)

  datatype Reply = Reply(ref: Ref, secret: Secret, time: real)

  datatype State = State(
    now: real,
    l1: map<(Proc, Ref), Entry>,
    l2: map<string, Entry>,
    calls: map<CallId, Call>,
    replies: seq<Reply>)

  datatype Action =
    | Tick(span: real)
    | Begin(id: CallId, proc: Proc, ref: Ref)
    | GetL2(id: CallId, reachable: bool)
    | KeepFromL2(id: CallId)
    | Fetch(id: CallId, answered: bool)
    | KeepFetched(id: CallId)
    | SetL2(id: CallId, reachable: bool)
    | Return(id: CallId)

  const INITIAL := State(0.0, map[], map[], map[], [])

  // When the call got the answer it is still working on.
  function Since(c: Call): Option<real> {
    match c
    case FromL2(_, _, _, since) => Some(since)
    case FromVault(_, _, secret) => Some(secret.held)
    case Kept(_, _, secret) => Some(secret.held)
    case Done(_, _, secret) => Some(secret.held)
    case _ => None
  }

  predicate InTime(w: World, c: Call, now: real) {
    Since(c).None? || now <= Since(c).value + w.lag
  }

  predicate CanStep(w: World, refs: set<Ref>, s: State, a: Action) {
    match a
    case Tick(span) => span >= 0.0 && forall id :: id in s.calls ==> InTime(w, s.calls[id], s.now + span)
    case Begin(id, _, ref) => id !in s.calls && ref in refs
    case GetL2(id, _) => id in s.calls && s.calls[id].AskingL2?
    case KeepFromL2(id) => id in s.calls && s.calls[id].FromL2?
    case Fetch(id, _) => id in s.calls && s.calls[id].AskingVault?
    case KeepFetched(id) => id in s.calls && s.calls[id].FromVault?
    case SetL2(id, _) => id in s.calls && s.calls[id].Kept?
    case Return(id) => id in s.calls && s.calls[id].Done?
  }

  ghost function Step(w: World, refs: set<Ref>, s: State, a: Action): State
    requires CanStep(w, refs, s, a)
  {
    match a
    case Tick(span) => s.(now := s.now + span)
    case Begin(id, proc, ref) =>
      var hit := if w.ttl > 0 then Hit(s.l1, (proc, ref), s.now) else None;
      if hit.Some? then s.(replies := s.replies + [Reply(ref, hit.value, s.now)])
      else s.(calls := s.calls[id := if w.ttl > 0 then AskingL2(proc, ref) else AskingVault(proc, ref)])
    case GetL2(id, reachable) =>
      var c := s.calls[id];
      var hit := if reachable then Hit(s.l2, Key(c.ref), s.now) else None;
      s.(calls := s.calls[id := if hit.Some? then FromL2(c.proc, c.ref, hit.value, s.now)
                                else AskingVault(c.proc, c.ref)])
    case KeepFromL2(id) =>
      var c := s.calls[id];
      s.(l1 := Put(s.l1, (c.proc, c.ref), s.now, L1_TTL, c.secret),
         calls := s.calls - {id},
         replies := s.replies + [Reply(c.ref, c.secret, s.now)])
    case Fetch(id, answered) =>
      var c := s.calls[id];
      if answered && (Location(c.ref), s.now) in w.vault then
        var secret := Secret(w.vault[(Location(c.ref), s.now)], s.now);
        s.(calls := s.calls[id := if w.ttl > 0 then FromVault(c.proc, c.ref, secret) else Done(c.proc, c.ref, secret)])
      else s.(calls := s.calls - {id})
    case KeepFetched(id) =>
      var c := s.calls[id];
      s.(l1 := Put(s.l1, (c.proc, c.ref), s.now, L1_TTL, c.secret),
         calls := s.calls[id := Kept(c.proc, c.ref, c.secret)])
    case SetL2(id, reachable) =>
      var c := s.calls[id];
      s.(l2 := if reachable then Put(s.l2, Key(c.ref), s.now, w.ttl as real, c.secret) else s.l2,
         calls := s.calls[id := Done(c.proc, c.ref, c.secret)])
    case Return(id) =>
      var c := s.calls[id];
      s.(calls := s.calls - {id}, replies := s.replies + [Reply(c.ref, c.secret, s.now)])
  }

  ghost predicate IsRun(w: World, refs: set<Ref>, s: State, actions: seq<Action>)
    decreases |actions|
  {
    actions != [] ==> (
      CanStep(w, refs, s, actions[0]) && IsRun(w, refs, Step(w, refs, s, actions[0]), actions[1..]))
  }

  ghost function After(w: World, refs: set<Ref>, s: State, actions: seq<Action>): State
    requires IsRun(w, refs, s, actions)
    decreases |actions|
  {
    if actions == [] then s else After(w, refs, Step(w, refs, s, actions[0]), actions[1..])
  }

  // ---------- One call, step by step ----------

  // The steps of one call of process proc with no other step between them.
  ghost function Uninterrupted(w: World, refs: set<Ref>, s: State, id: CallId, proc: Proc, ref: Ref,
                               getWorks: bool, answered: bool, setWorks: bool): State
    requires id !in s.calls && ref in refs
  {
    var s1 := Step(w, refs, s, Begin(id, proc, ref));
    if id !in s1.calls then s1
    else if w.ttl == 0 then FromVaultOn(w, refs, s1, id, answered, setWorks)
    else
      var s2 := Step(w, refs, s1, GetL2(id, getWorks));
      if s2.calls[id].FromL2? then Step(w, refs, s2, KeepFromL2(id)) else FromVaultOn(w, refs, s2, id, answered, setWorks)
  }

  // The steps from asking Vault on.
  ghost function FromVaultOn(w: World, refs: set<Ref>, s: State, id: CallId, answered: bool, setWorks: bool): State
    requires id in s.calls && s.calls[id].AskingVault?
  {
    var s1 := Step(w, refs, s, Fetch(id, answered));
    if id !in s1.calls then s1
    else if w.ttl == 0 then Step(w, refs, s1, Return(id))
    else Step(w, refs, Step(w, refs, Step(w, refs, s1, KeepFetched(id)), SetL2(id, setWorks)), Return(id))
  }

  // What is asked of Vault: an empty namespace is left out.
  function Asked(r: Ref): Ref {
    Ref(if r.namespace == Some("") then None else r.namespace, r.mount, r.path, r.version)
  }

  // The state with one call in progress.
  function With(s: State, id: CallId, c: Call): State {
    s.(calls := s.calls[id := c])
  }

  lemma Replaced(calls: map<CallId, Call>, id: CallId, c: Call, d: Call)
    ensures calls[id := c][id := d] == calls[id := d]
    ensures id !in calls ==> calls[id := c] - {id} == calls
  {
  }

  // What Vault's answer, if there is one, makes of the caches and the replies.
  function Fetched(w: World, s: State, proc: Proc, ref: Ref, answered: bool, setWorks: bool): State {
    if !answered || (Asked(ref), s.now) !in w.vault then s
    else
      var secret := Secret(w.vault[(Asked(ref), s.now)], s.now);
      State(s.now,
            if w.ttl > 0 then s.l1[(proc, ref) := Entry(s.now + 10.0, secret)] else s.l1,
            if w.ttl > 0 && setWorks then s.l2[Key(ref) := Entry(s.now + w.ttl as real, secret)] else s.l2,
            s.calls, s.replies + [Reply(ref, secret, s.now)])
  }

  lemma FetchAsked(w: World, refs: set<Ref>, s: State, id: CallId, proc: Proc, ref: Ref, answered: bool)
    requires id !in s.calls
    ensures Step(w, refs, With(s, id, AskingVault(proc, ref)), Fetch(id, answered)) ==
            if !answered || (Asked(ref), s.now) !in w.vault then s
            else
              var secret := Secret(w.vault[(Asked(ref), s.now)], s.now);
              With(s, id, if w.ttl > 0 then FromVault(proc, ref, secret) else Done(proc, ref, secret))
  {
    LocationExactly(ref, Asked(ref));
    Replaced(s.calls, id, AskingVault(proc, ref), AskingVault(proc, ref));
    if (Asked(ref), s.now) in w.vault {
      var secret := Secret(w.vault[(Asked(ref), s.now)], s.now);
      Replaced(s.calls, id, AskingVault(proc, ref), FromVault(proc, ref, secret));
      Replaced(s.calls, id, AskingVault(proc, ref), Done(proc, ref, secret));
    }
  }

  lemma AnswerReturned(w: World, refs: set<Ref>, s: State, id: CallId, proc: Proc, ref: Ref, secret: Secret)
    requires id !in s.calls
    ensures Step(w, refs, With(s, id, Done(proc, ref, secret)), Return(id)) ==
            s.(replies := s.replies + [Reply(ref, secret, s.now)])
  {
    Replaced(s.calls, id, Done(proc, ref, secret), Done(proc, ref, secret));
  }

  lemma VaultAnswers(w: World, refs: set<Ref>, s: State, id: CallId, proc: Proc, ref: Ref, answered: bool, setWorks: bool)
    requires id !in s.calls
    ensures FromVaultOn(w, refs, With(s, id, AskingVault(proc, ref)), id, answered, setWorks)
         == Fetched(w, s, proc, ref, answered, setWorks)
  {
    FetchAsked(w, refs, s, id, proc, ref, answered);
    if answered && (Asked(ref), s.now) in w.vault {
      var secret := Secret(w.vault[(Asked(ref), s.now)], s.now);
      if w.ttl == 0 {
        AnswerReturned(w, refs, s, id, proc, ref, secret);
      } else {
        AnswerKept(w, refs, s, id, proc, ref, secret, setWorks);
      }
    }
  }

  lemma AnswerKept(w: World, refs: set<Ref>, s: State, id: CallId, proc: Proc, ref: Ref, secret: Secret, setWorks: bool)
    requires id !in s.calls
    ensures var s2 := Step(w, refs, With(s, id, FromVault(proc, ref, secret)), KeepFetched(id));
            CanStep(w, refs, s2, SetL2(id, setWorks)) &&
            var s3 := Step(w, refs, s2, SetL2(id, setWorks));
            CanStep(w, refs, s3, Return(id)) &&
            Step(w, refs, s3, Return(id)) ==
            State(s.now, s.l1[(proc, ref) := Entry(s.now + 10.0, secret)],
                  if setWorks then s.l2[Key(ref) := Entry(s.now + w.ttl as real, secret)] else s.l2,
                  s.calls, s.replies + [Reply(ref, secret, s.now)])
  {
    Replaced(s.calls, id, FromVault(proc, ref, secret), Kept(proc, ref, secret));
    Replaced(s.calls, id, Kept(proc, ref, secret), Done(proc, ref, secret));
    Replaced(s.calls, id, Done(proc, ref, secret), Done(proc, ref, secret));
  }

  lemma SharedAnswers(w: World, refs: set<Ref>, s: State, id: CallId, proc: Proc, ref: Ref, secret: Secret)
    requires id !in s.calls
    ensures Step(w, refs, With(s, id, FromL2(proc, ref, secret, s.now)), KeepFromL2(id)) ==
            s.(l1 := s.l1[(proc, ref) := Entry(s.now + 10.0, secret)], replies := s.replies + [Reply(ref, secret, s.now)])
  {
    Replaced(s.calls, id, FromL2(proc, ref, secret, s.now), FromL2(proc, ref, secret, s.now));
  }

  lemma SharedAsked(w: World, refs: set<Ref>, s: State, id: CallId, proc: Proc, ref: Ref, getWorks: bool)
    ensures Step(w, refs, With(s, id, AskingL2(proc, ref)), GetL2(id, getWorks)) ==
            if getWorks && Key(ref) in s.l2 && s.l2[Key(ref)].expires > s.now
            then With(s, id, FromL2(proc, ref, s.l2[Key(ref)].secret, s.now))
            else With(s, id, AskingVault(proc, ref))
  {
    Replaced(s.calls, id, AskingL2(proc, ref), AskingVault(proc, ref));
    if Key(ref) in s.l2 {
      Replaced(s.calls, id, AskingL2(proc, ref), FromL2(proc, ref, s.l2[Key(ref)].secret, s.now));
    }
  }

  /**
   * Such a call does what `VaultProvider.Process.ReadSecret` does: its own live entry answers, else a
   * live shared one, kept for ten seconds, else Vault, kept for ten seconds and shared for the TTL
   * unless Redis fails; without an answer, or with caching off, both caches stay as they were.
   */
  lemma UninterruptedCall(w: World, refs: set<Ref>, s: State, id: CallId, proc: Proc, ref: Ref,
                          getWorks: bool, answered: bool, setWorks: bool)
    requires id !in s.calls && ref in refs
    ensures Uninterrupted(w, refs, s, id, proc, ref, getWorks, answered, setWorks) ==
            if w.ttl > 0 && (proc, ref) in s.l1 && s.l1[(proc, ref)].expires > s.now
            then s.(replies := s.replies + [Reply(ref, s.l1[(proc, ref)].secret, s.now)])
            else if w.ttl > 0 && getWorks && Key(ref) in s.l2 && s.l2[Key(ref)].expires > s.now
            then s.(l1 := s.l1[(proc, ref) := Entry(s.now + 10.0, s.l2[Key(ref)].secret)],
                    replies := s.replies + [Reply(ref, s.l2[Key(ref)].secret, s.now)])
            else Fetched(w, s, proc, ref, answered, setWorks)
  {
    VaultAnswers(w, refs, s, id, proc, ref, answered, setWorks);
    SharedAsked(w, refs, s, id, proc, ref, getWorks);
    if Key(ref) in s.l2 {
      SharedAnswers(w, refs, s, id, proc, ref, s.l2[Key(ref)].secret);
    }
  }

  // ---------- Freshness ----------

  predicate HeldFor(w: World, ref: Ref, secret: Secret) {
    (Location(ref), secret.held) in w.vault && w.vault[(Location(ref), secret.held)] == secret.data
  }

  // A reply is what Vault held for the same reference less than the two TTLs and the time in
  // transit ago; without caching, no longer ago than the time in transit.
  predicate Fresh(w: World, r: Reply) {
    && HeldFor(w, r.ref, r.secret)
    && r.secret.held <= r.time
    && (if w.ttl == 0 then r.time <= r.secret.held + w.lag
        else r.time < r.secret.held + w.ttl as real + L1_TTL + 2.0 * w.lag)
  }

  predicate CallOk(w: World, refs: set<Ref>, now: real, c: Call) {
    && c.ref in refs
    && InTime(w, c, now)
    && (match c
        case AskingL2(_, _) => w.ttl > 0
        case AskingVault(_, _) => true
        case FromL2(_, ref, secret, since) =>
          && w.ttl > 0 && HeldFor(w, ref, secret) && secret.held <= since <= now
          && since < secret.held + w.ttl as real + w.lag
        case FromVault(_, ref, secret) => w.ttl > 0 && HeldFor(w, ref, secret) && secret.held <= now
        case Kept(_, ref, secret) => w.ttl > 0 && HeldFor(w, ref, secret) && secret.held <= now
        case Done(_, ref, secret) => HeldFor(w, ref, secret) && secret.held <= now)
  }

  predicate L1Ok(w: World, now: real, ref: Ref, e: Entry) {
    && w.ttl > 0 && HeldFor(w, ref, e.secret) && e.secret.held <= now
    && e.expires < e.secret.held + w.ttl as real + L1_TTL + 2.0 * w.lag
  }

  predicate L2Ok(w: World, now: real, ref: Ref, e: Entry) {
    && w.ttl > 0 && HeldFor(w, ref, e.secret) && e.secret.held <= now
    && e.expires <= e.secret.held + w.ttl as real + w.lag
  }

  ghost predicate Inv(w: World, refs: set<Ref>, s: State) {
    && (forall id :: id in s.calls ==> CallOk(w, refs, s.now, s.calls[id]))
    && (forall k :: k in s.l1 ==> L1Ok(w, s.now, k.1, s.l1[k]))
    && (forall ref :: ref in refs && Key(ref) in s.l2 ==> L2Ok(w, s.now, ref, s.l2[Key(ref)]))
    && (forall i :: 0 <= i < |s.replies| ==> Fresh(w, s.replies[i]))
  }

  // No two of the references share a Redis key, unless they are to the same secret.
  ghost predicate KeysApart(refs: set<Ref>) {
    forall q, r :: q in refs && r in refs && Key(q) == Key(r) ==> Location(q) == Location(r)
  }

  lemma TickKeepsInv(w: World, refs: set<Ref>, s: State, a: Action)
    requires w.lag >= 0.0 && (w.ttl == 0 || KeysApart(refs))
    requires Inv(w, refs, s) && CanStep(w, refs, s, a) && a.Tick?
    ensures Inv(w, refs, Step(w, refs, s, a))
  {
  }

  lemma BeginKeepsInv(w: World, refs: set<Ref>, s: State, a: Action)
    requires w.lag >= 0.0 && (w.ttl == 0 || KeysApart(refs))
    requires Inv(w, refs, s) && CanStep(w, refs, s, a) && a.Begin?
    ensures Inv(w, refs, Step(w, refs, s, a))
  {
  }

  lemma GetL2KeepsInv(w: World, refs: set<Ref>, s: State, a: Action)
    requires w.lag >= 0.0 && (w.ttl == 0 || KeysApart(refs))
    requires Inv(w, refs, s) && CanStep(w, refs, s, a) && a.GetL2?
    ensures Inv(w, refs, Step(w, refs, s, a))
  {
  }

  lemma KeepFromL2KeepsInv(w: World, refs: set<Ref>, s: State, a: Action)
    requires w.lag >= 0.0 && (w.ttl == 0 || KeysApart(refs))
    requires Inv(w, refs, s) && CanStep(w, refs, s, a) && a.KeepFromL2?
    ensures Inv(w, refs, Step(w, refs, s, a))
  {
  }

  lemma FetchKeepsInv(w: World, refs: set<Ref>, s: State, a: Action)
    requires w.lag >= 0.0 && (w.ttl == 0 || KeysApart(refs))
    requires Inv(w, refs, s) && CanStep(w, refs, s, a) && a.Fetch?
    ensures Inv(w, refs, Step(w, refs, s, a))
  {
  }

  lemma KeepFetchedKeepsInv(w: World, refs: set<Ref>, s: State, a: Action)
    requires w.lag >= 0.0 && (w.ttl == 0 || KeysApart(refs))
    requires Inv(w, refs, s) && CanStep(w, refs, s, a) && a.KeepFetched?
    ensures Inv(w, refs, Step(w, refs, s, a))
  {
  }

  lemma SetL2KeepsInv(w: World, refs: set<Ref>, s: State, a: Action)
    requires w.lag >= 0.0 && (w.ttl == 0 || KeysApart(refs))
    requires Inv(w, refs, s) && CanStep(w, refs, s, a) && a.SetL2?
    ensures Inv(w, refs, Step(w, refs, s, a))
  {
  }

  lemma ReturnKeepsInv(w: World, refs: set<Ref>, s: State, a: Action)
    requires w.lag >= 0.0 && (w.ttl == 0 || KeysApart(refs))
    requires Inv(w, refs, s) && CanStep(w, refs, s, a) && a.Return?
    ensures Inv(w, refs, Step(w, refs, s, a))
  {
  }

  lemma StepKeepsInv(w: World, refs: set<Ref>, s: State, a: Action)
    requires w.lag >= 0.0 && (w.ttl == 0 || KeysApart(refs))
    requires Inv(w, refs, s) && CanStep(w, refs, s, a)
    ensures Inv(w, refs, Step(w, refs, s, a))
  {
    match a
    case Tick(_) => TickKeepsInv(w, refs, s, a);
    case Begin(_, _, _) => BeginKeepsInv(w, refs, s, a);
    case GetL2(_, _) => GetL2KeepsInv(w, refs, s, a);
    case KeepFromL2(_) => KeepFromL2KeepsInv(w, refs, s, a);
    case Fetch(_, _) => FetchKeepsInv(w, refs, s, a);
    case KeepFetched(_) => KeepFetchedKeepsInv(w, refs, s, a);
    case SetL2(_, _) => SetL2KeepsInv(w, refs, s, a);
    case Return(_) => ReturnKeepsInv(w, refs, s, a);
  }

  // ---------- Runs ----------

  lemma {:induction false} RunKeepsInv(w: World, refs: set<Ref>, s: State, actions: seq<Action>)
    requires w.lag >= 0.0 && (w.ttl == 0 || KeysApart(refs))
    requires Inv(w, refs, s) && IsRun(w, refs, s, actions)
    ensures Inv(w, refs, After(w, refs, s, actions))
    decreases |actions|
  {
    if actions != [] {
      StepKeepsInv(w, refs, s, actions[0]);
      RunKeepsInv(w, refs, Step(w, refs, s, actions[0]), actions[1..]);
    }
  }

  ghost predicate AllFresh(w: World, s: State) {
    forall i :: 0 <= i < |s.replies| ==> Fresh(w, s.replies[i])
  }

  // Every reply of every run over these references, whatever Vault does, is fresh.
  ghost predicate AlwaysFresh(refs: set<Ref>, ttl: nat, lag: real) {
    forall w: World, actions: seq<Action> {:trigger IsRun(w, refs, INITIAL, actions)} ::
      w.ttl == ttl && w.lag == lag && IsRun(w, refs, INITIAL, actions) ==>
        AllFresh(w, After(w, refs, INITIAL, actions))
  }

  lemma Then(w: World, refs: set<Ref>, s: State, a: Action, rest: seq<Action>)
    requires CanStep(w, refs, s, a) && IsRun(w, refs, Step(w, refs, s, a), rest)
    ensures IsRun(w, refs, s, [a] + rest)
    ensures After(w, refs, s, [a] + rest) == After(w, refs, Step(w, refs, s, a), rest)
  {
    assert ([a] + rest)[1..] == rest;
  }

  // The steps of a call that finds nothing in either cache and stores what Vault answers.
  ghost function MissedOnce(w: World, refs: set<Ref>, q: Ref): State
    requires w.ttl > 0 && q in refs && (Location(q), 0.0) in w.vault
  {
    var secret := Secret(w.vault[(Location(q), 0.0)], 0.0);
    State(0.0, map[(0, q) := Entry(L1_TTL, secret)], map[Key(q) := Entry(w.ttl as real, secret)],
          map[0 := Done(0, q, secret)], [])
  }

  lemma ReachMissedOnce(w: World, refs: set<Ref>, q: Ref, rest: seq<Action>) returns (actions: seq<Action>)
    requires w.ttl > 0 && q in refs && (Location(q), 0.0) in w.vault
    requires IsRun(w, refs, MissedOnce(w, refs, q), rest)
    ensures IsRun(w, refs, INITIAL, actions)
    ensures After(w, refs, INITIAL, actions) == After(w, refs, MissedOnce(w, refs, q), rest)
  {
    var s1 := Step(w, refs, INITIAL, Begin(0, 0, q));
    var s2 := Step(w, refs, s1, GetL2(0, true));
    var s3 := Step(w, refs, s2, Fetch(0, true));
    var s4 := Step(w, refs, s3, KeepFetched(0));
    var s5 := Step(w, refs, s4, SetL2(0, true));
    assert s5 == MissedOnce(w, refs, q);
    actions := [SetL2(0, true)] + rest;
    Then(w, refs, s4, SetL2(0, true), rest);
    Then(w, refs, s3, KeepFetched(0), actions);
    actions := [KeepFetched(0)] + actions;
    Then(w, refs, s2, Fetch(0, true), actions);
    actions := [Fetch(0, true)] + actions;
    Then(w, refs, s1, GetL2(0, true), actions);
    actions := [GetL2(0, true)] + actions;
    Then(w, refs, INITIAL, Begin(0, 0, q), actions);
    actions := [Begin(0, 0, q)] + actions;
  }

  // Once a process has read one of two references with a common key, another process reading the
  // other one is given the first one's secret.
  lemma LeakFrom(w: World, refs: set<Ref>, q: Ref, r: Ref, rest: seq<Action>)
    requires w.ttl > 0 && q in refs && r in refs && Key(q) == Key(r) && (Location(q), 0.0) in w.vault
    requires rest == [Begin(1, 1, r)] + ([GetL2(1, true)] + ([KeepFromL2(1)] + []))
    ensures IsRun(w, refs, MissedOnce(w, refs, q), rest)
    ensures After(w, refs, MissedOnce(w, refs, q), rest).replies
         == [Reply(r, Secret(w.vault[(Location(q), 0.0)], 0.0), 0.0)]
  {
    var s := MissedOnce(w, refs, q);
    var s1 := Step(w, refs, s, Begin(1, 1, r));
    var s2 := Step(w, refs, s1, GetL2(1, true));
    Then(w, refs, s2, KeepFromL2(1), []);
    Then(w, refs, s1, GetL2(1, true), [KeepFromL2(1)] + []);
    Then(w, refs, s, Begin(1, 1, r), [GetL2(1, true)] + ([KeepFromL2(1)] + []));
  }

  lemma CollidingKeysLeak(refs: set<Ref>, q: Ref, r: Ref, ttl: nat, lag: real)
    requires q in refs && r in refs && Location(q) != Location(r) && Key(q) == Key(r) && ttl > 0
    ensures !AlwaysFresh(refs, ttl, lag)
  {
    var w := TwoSecrets(q, ttl, lag);
    var rest := [Begin(1, 1, r)] + ([GetL2(1, true)] + ([KeepFromL2(1)] + []));
    LeakFrom(w, refs, q, r, rest);
    var actions := ReachMissedOnce(w, refs, q, rest);
    WrongReply(w, refs, actions, r);
  }

  // A world in which one reference leads to one secret and all others to another.
  ghost function TwoSecrets(q: Ref, ttl: nat, lag: real): (w: World)
    ensures w.ttl == ttl && w.lag == lag
    ensures forall r: Ref, t: real :: (r, t) in w.vault && w.vault[(r, t)] == if r == Location(q) then "first" else "second"
  {
    World(ttl, lag, imap k: (Ref, real) | true :: if k.0 == Location(q) then "first" else "second")
  }

  lemma WrongReply(w: World, refs: set<Ref>, actions: seq<Action>, r: Ref)
    requires IsRun(w, refs, INITIAL, actions)
    requires After(w, refs, INITIAL, actions).replies == [Reply(r, Secret("first", 0.0), 0.0)]
    requires (Location(r), 0.0) in w.vault && w.vault[(Location(r), 0.0)] == "second"
    ensures !AlwaysFresh(refs, w.ttl, w.lag)
  {
    var end := After(w, refs, INITIAL, actions);
    assert !HeldFor(w, r, end.replies[0].secret);
  }

  /**
   * Staleness: over every run of any number of processes and every history of Vault, each reply is
   * recent and of the reference asked for, exactly when the cache is off or no two references in
   * use share a Redis key.
   */
  lemma AlwaysFreshExactly(refs: set<Ref>, ttl: nat, lag: real)
    requires lag >= 0.0
    ensures AlwaysFresh(refs, ttl, lag) <==> ttl == 0 || KeysApart(refs)
  {
    if ttl == 0 || KeysApart(refs) {
      forall w: World, actions: seq<Action> |
        w.ttl == ttl && w.lag == lag && IsRun(w, refs, INITIAL, actions)
        ensures AllFresh(w, After(w, refs, INITIAL, actions))
      {
        RunKeepsInv(w, refs, INITIAL, actions);
      }
    } else {
      var q, r :| q in refs && r in refs && Key(q) == Key(r) && Location(q) != Location(r);
      CollidingKeysLeak(refs, q, r, ttl, lag);
    }
  }

  /**
   * The same said of a single reply: the data is what Vault held at some moment for exactly the
   * namespace, mount, path and version asked for, an empty namespace being none, and that moment
   * was less than cache_ttl + 10 seconds, plus twice the time in transit, before the reply.
   */
  lemma ReplyIsRecent(w: World, refs: set<Ref>, actions: seq<Action>, i: nat)
    requires w.lag >= 0.0 && (w.ttl == 0 || KeysApart(refs)) && IsRun(w, refs, INITIAL, actions)
    requires i < |After(w, refs, INITIAL, actions).replies|
    ensures var r := After(w, refs, INITIAL, actions).replies[i];
            var asked := if r.ref.namespace == Some("") then Ref(None, r.ref.mount, r.ref.path, r.ref.version) else r.ref;
            && (asked, r.secret.held) in w.vault && w.vault[(asked, r.secret.held)] == r.secret.data
            && r.secret.held <= r.time
            && (if w.ttl == 0 then r.time <= r.secret.held + w.lag
                else r.time < r.secret.held + w.ttl as real + 10.0 + 2.0 * w.lag)
  {
    RunKeepsInv(w, refs, INITIAL, actions);
    var r := After(w, refs, INITIAL, actions).replies[i];
    assert Fresh(w, r);
    LocationExactly(r.ref, Ref(None, r.ref.mount, r.ref.path, r.ref.version));
  }

  // ---------- The bound cannot be lowered ----------

  // A secret fetched at time zero and stored as late as the time in transit allows.
  ghost function StoredLate(w: World, q: Ref): State
    requires (Location(q), 0.0) in w.vault
  {
    var secret := Secret(w.vault[(Location(q), 0.0)], 0.0);
    State(w.lag, map[(0, q) := Entry(w.lag + L1_TTL, secret)], map[Key(q) := Entry(w.lag + w.ttl as real, secret)],
          map[], [Reply(q, secret, w.lag)])
  }

  // Another process has just found it in the second level, a moment before it expires there.
  ghost function FoundLate(w: World, q: Ref, eps: real): State
    requires (Location(q), 0.0) in w.vault
  {
    var s := StoredLate(w, q);
    var now := w.lag + w.ttl as real - eps;
    s.(now := now, calls := map[1 := FromL2(1, q, Secret(w.vault[(Location(q), 0.0)], 0.0), now)])
  }

  // The fetched secret, still on its way when the time in transit is over.
  ghost function InTransit(w: World, q: Ref): State
    requires (Location(q), 0.0) in w.vault
  {
    State(w.lag, map[], map[], map[0 := FromVault(0, q, Secret(w.vault[(Location(q), 0.0)], 0.0))], [])
  }

  lemma ReachInTransit(w: World, refs: set<Ref>, q: Ref, rest: seq<Action>) returns (actions: seq<Action>)
    requires w.ttl > 0 && w.lag >= 0.0 && q in refs && (Location(q), 0.0) in w.vault
    requires IsRun(w, refs, InTransit(w, q), rest)
    ensures IsRun(w, refs, INITIAL, actions)
    ensures After(w, refs, INITIAL, actions) == After(w, refs, InTransit(w, q), rest)
  {
    var s1 := Step(w, refs, INITIAL, Begin(0, 0, q));
    var s2 := Step(w, refs, s1, GetL2(0, true));
    var s3 := Step(w, refs, s2, Fetch(0, true));
    assert Step(w, refs, s3, Tick(w.lag)) == InTransit(w, q);
    Then(w, refs, s3, Tick(w.lag), rest);
    actions := [Tick(w.lag)] + rest;
    Then(w, refs, s2, Fetch(0, true), actions);
    actions := [Fetch(0, true)] + actions;
    Then(w, refs, s1, GetL2(0, true), actions);
    actions := [GetL2(0, true)] + actions;
    Then(w, refs, INITIAL, Begin(0, 0, q), actions);
    actions := [Begin(0, 0, q)] + actions;
  }

  lemma ReachStoredLate(w: World, refs: set<Ref>, q: Ref, rest: seq<Action>) returns (actions: seq<Action>)
    requires w.ttl > 0 && w.lag >= 0.0 && q in refs && (Location(q), 0.0) in w.vault
    requires IsRun(w, refs, StoredLate(w, q), rest)
    ensures IsRun(w, refs, InTransit(w, q), actions)
    ensures After(w, refs, InTransit(w, q), actions) == After(w, refs, StoredLate(w, q), rest)
  {
    var s := InTransit(w, q);
    var s1 := Step(w, refs, s, KeepFetched(0));
    var s2 := Step(w, refs, s1, SetL2(0, true));
    assert Step(w, refs, s2, Return(0)) == StoredLate(w, q);
    Then(w, refs, s2, Return(0), rest);
    actions := [Return(0)] + rest;
    Then(w, refs, s1, SetL2(0, true), actions);
    actions := [SetL2(0, true)] + actions;
    Then(w, refs, s, KeepFetched(0), actions);
    actions := [KeepFetched(0)] + actions;
  }

  lemma ReachFoundLate(w: World, refs: set<Ref>, q: Ref, eps: real, rest: seq<Action>) returns (actions: seq<Action>)
    requires w.ttl > 0 && w.lag >= 0.0 && q in refs && (Location(q), 0.0) in w.vault && 0.0 < eps <= 1.0
    requires IsRun(w, refs, FoundLate(w, q, eps), rest)
    ensures IsRun(w, refs, StoredLate(w, q), actions)
    ensures After(w, refs, StoredLate(w, q), actions) == After(w, refs, FoundLate(w, q, eps), rest)
  {
    var s, wait := StoredLate(w, q), w.ttl as real - eps;
    var s1 := Step(w, refs, s, Tick(wait));
    var s2 := Step(w, refs, s1, Begin(1, 1, q));
    var s3 := Step(w, refs, s2, GetL2(1, true));
    assert s3 == FoundLate(w, q, eps);
    actions := [GetL2(1, true)] + rest;
    Then(w, refs, s2, GetL2(1, true), rest);
    Then(w, refs, s1, Begin(1, 1, q), actions);
    actions := [Begin(1, 1, q)] + actions;
    Then(w, refs, s, Tick(wait), actions);
    actions := [Tick(wait)] + actions;
  }

  lemma LateReply(w: World, refs: set<Ref>, q: Ref, eps: real) returns (actions: seq<Action>)
    requires w.ttl > 0 && w.lag >= 0.0 && q in refs && (Location(q), 0.0) in w.vault && 0.0 < eps <= 1.0
    ensures IsRun(w, refs, FoundLate(w, q, eps), actions)
    ensures var replies := After(w, refs, FoundLate(w, q, eps), actions).replies;
            |replies| == 3 && replies[2].secret.held == 0.0
            && replies[2].time == w.ttl as real + L1_TTL + 2.0 * w.lag - 2.0 * eps
  {
    var s, wait := FoundLate(w, q, eps), L1_TTL - eps;
    var s1 := Step(w, refs, s, Tick(w.lag));
    var s2 := Step(w, refs, s1, KeepFromL2(1));
    var s3 := Step(w, refs, s2, Tick(wait));
    Then(w, refs, s3, Begin(2, 1, q), []);
    actions := [Begin(2, 1, q)] + [];
    Then(w, refs, s2, Tick(wait), actions);
    actions := [Tick(wait)] + actions;
    Then(w, refs, s1, KeepFromL2(1), actions);
    actions := [KeepFromL2(1)] + actions;
    Then(w, refs, s, Tick(w.lag), actions);
    actions := [Tick(w.lag)] + actions;
  }

  /** With caching on, some run returns a secret as close to the bound as one likes. */
  lemma BoundIsTight(w: World, refs: set<Ref>, q: Ref, eps: real) returns (actions: seq<Action>)
    requires w.ttl > 0 && w.lag >= 0.0 && q in refs && (Location(q), 0.0) in w.vault && 0.0 < eps <= 1.0
    ensures IsRun(w, refs, INITIAL, actions)
    ensures exists i :: 0 <= i < |After(w, refs, INITIAL, actions).replies|
              && var r := After(w, refs, INITIAL, actions).replies[i];
                 r.time - r.secret.held == w.ttl as real + 10.0 + 2.0 * w.lag - 2.0 * eps
  {
    var last := LateReply(w, refs, q, eps);
    var middle := ReachFoundLate(w, refs, q, eps, last);
    var first := ReachStoredLate(w, refs, q, middle);
    actions := ReachInTransit(w, refs, q, first);
    var r := After(w, refs, INITIAL, actions).replies[2];
    assert r.time - r.secret.held == w.ttl as real + 10.0 + 2.0 * w.lag - 2.0 * eps;
  }

  // ---------- When keys are apart ----------

  predicate NoColon(r: Ref) {
    && ':' !in r.mount && ':' !in r.path
    && (r.namespace.Some? ==> ':' !in r.namespace.value)
  }

  lemma SplitAtColon(a: string, x: string, b: string, y: string)
    requires ':' !in a && ':' !in b && Colon(a, x) == Colon(b, y)
    ensures a == b && x == y
  {
    var s := Colon(a, x);
    assert s[|a|] == ':' && s[|b|] == ':';
    assert forall i :: 0 <= i < |a| ==> s[i] == a[i];
    assert forall i :: 0 <= i < |b| ==> s[i] == b[i];
    assert s[..|a|] == a && s[..|b|] == b;
    assert s[|a| + 1..] == x && s[|b| + 1..] == y;
  }

  lemma VersionsApart(q: Ref, r: Ref)
    requires NoColon(q) && NoColon(r) && Ver(q) == Ver(r)
    ensures q.version == r.version
  {
    if q.version.Some? { DecimalDigits(q.version.value); }
    if r.version.Some? { DecimalDigits(r.version.value); }
    assert !IsDigit("latest"[0]);
  }

  /**
   * Among references without colons, two share a key exactly when they agree on everything but
   * whether the default namespace is left out, empty or spelled "default".
   */
  lemma KeysOfColonFree(q: Ref, r: Ref)
    requires NoColon(q) && NoColon(r)
    ensures Key(q) == Key(r) <==>
            Ns(q) == Ns(r) && q.mount == r.mount && q.path == r.path && q.version == r.version
  {
    if Key(q) == Key(r) {
      var front := "linux_net:cache:vault:";
      assert Key(q)[|front|..] == Key(r)[|front|..];
      SplitAtColon(Ns(q), Colon(q.mount, Colon(q.path, Ver(q))), Ns(r), Colon(r.mount, Colon(r.path, Ver(r))));
      SplitAtColon(q.mount, Colon(q.path, Ver(q)), r.mount, Colon(r.path, Ver(r)));
      SplitAtColon(q.path, Ver(q), r.path, Ver(r));
      VersionsApart(q, r);
    }
  }

  lemma ColonFreeKeysApart(refs: set<Ref>)
    requires forall r :: r in refs ==> NoColon(r) && r.namespace != Some("default")
    ensures KeysApart(refs)
  {
    forall q, r | q in refs && r in refs && Key(q) == Key(r) ensures Location(q) == Location(r) {
      KeysOfColonFree(q, r);
    }
  }

  // The text of a key, for a reference with a version and for one without.
  lemma KeyText(path: string)
    ensures Key(Ref(None, "kv", path, None)) == "linux_net:cache:vault:default:kv:" + path + ":latest"
    ensures Key(Ref(Some("eu"), "kv", path, Some(12))) == "linux_net:cache:vault:eu:kv:" + path + ":12"
  {
    assert Decimal(12) == "12" by { assert Decimal(1) == "1"; }
    Parts("default", path, "latest");
    Parts("eu", path, "12");
    assert "linux_net:cache:vault:" + ("default" + ":kv:") == "linux_net:cache:vault:default:kv:";
    assert "linux_net:cache:vault:" + ("eu" + ":kv:") == "linux_net:cache:vault:eu:kv:";
    assert ":" + "latest" == ":latest" && ":" + "12" == ":12";
  }

  lemma Parts(ns: string, path: string, ver: string)
    ensures "linux_net:cache:vault:" + Colon(ns, Colon("kv", Colon(path, ver)))
         == "linux_net:cache:vault:" + (ns + ":kv:") + path + (":" + ver)
  {
    var front := "linux_net:cache:vault:";
    assert Colon("kv", Colon(path, ver)) == "kv:" + (path + (":" + ver));
    assert front + Colon(ns, "kv:" + (path + (":" + ver))) == front + (ns + ":kv:") + (path + (":" + ver));
    assert front + (ns + ":kv:") + (path + (":" + ver)) == front + (ns + ":kv:") + path + (":" + ver);
  }

  // With colons, or with the namespace "default", references to different secrets do share a key.
  lemma KeysCollide(path: string)
    ensures !KeysApart({Ref(None, "kv", path, None), Ref(Some("default"), "kv", path, None)})
    ensures !KeysApart({Ref(None, "kv:a", path, None), Ref(None, "kv", "a:" + path, None)})
  {
    var tail := Colon(path, "latest");
    assert Colon("kv:a", tail) == Colon("kv", Colon("a:" + path, "latest"));
    var q, r := Ref(None, "kv", path, None), Ref(Some("default"), "kv", path, None);
    assert q in {q, r} && r in {q, r} && Key(q) == Key(r) && Location(q) != Location(r);
    var q', r' := Ref(None, "kv:a", path, None), Ref(None, "kv", "a:" + path, None);
    assert q' in {q', r'} && r' in {q', r'} && Key(q') == Key(r') && Location(q').mount != Location(r').mount;
  }
}
