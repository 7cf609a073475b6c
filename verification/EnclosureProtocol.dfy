/** Relays and background warmers sharing the route cache, over every interleaving of their steps. */
module EnclosureProtocol {
  import opened Common
  import opened EnclosureRoutes

  /** What the server's other parts decide: which types are audio, and which addresses share an origin. */
  datatype Rules = Rules(contentType: (string, string) -> Option<string>, sameOrigin: (string, string) -> bool)

  datatype Source = Source(url: string, feedUrl: string, authUser: string, mimeType: string)

  /** An upstream answer; `end` is the address that gave it, where the client knows one, `headers` those but its type. */
  datatype Answer = Failed | Answered(status: nat, contentType: string, end: Option<string>, headers: map<string, seq<string>>)

  const OK_STATUS := 200
  const PARTIAL := 206
  const UNSATISFIABLE := 416

  // -------------------------------------------------------------------- the decisions

  predicate Usable(a: Answer) { a.Answered? && a.status in {OK_STATUS, PARTIAL, UNSATISFIABLE} }

  predicate Gated(rules: Rules, a: Answer, declared: string)
    requires a.Answered?
  {
    a.status == UNSATISFIABLE || rules.contentType(a.contentType, declared).Some?
  }

  predicate Good(rules: Rules, a: Answer, src: Source) { Usable(a) && Gated(rules, a, src.mimeType) }

  /** The chain end a walk's answer teaches, if it is one to try first. */
  function Learned(rules: Rules, src: Source, a: Answer): Option<string> {
    if !Good(rules, a, src) || a.end.None? then None
    else if src.authUser != "" && !rules.sameOrigin(a.end.value, src.feedUrl) then None
    else a.end
  }

  function Taught(rules: Rules, c: Cache, pid: string, src: Source, a: Answer, purged: int, at: int): Cache {
    match Learned(rules, src, a)
    case None => c
    case Some(url) => RememberedIn(c, pid, src.url, url, purged, at)
  }

  // ----------------------------------------------------------------------- the actors

  /** A relay: the remembered end first where there is one, then the full chain. */
  datatype RelayPhase =
    | Asking
    | TryingShortcut(url: string)
    | Dropping
    | Walking
    | Walked(a: Answer)
    | Serving(a: Answer, walked: bool)
    | Refusing
    | RelayDone

  datatype Relay = Relay(pid: string, src: Source, phase: RelayPhase, fetches: nat)

  /** A warmer: a claim, a walk under it, and one release whichever way it goes. */
  datatype WarmPhase =
    | Wanting
    | Claimed
    | Resolving
    | Resolved(a: Answer)
    | Releasing
    | WarmDone

  datatype Warmer = Warmer(pid: string, src: Source, phase: WarmPhase, claims: nat, releases: nat)

  predicate Holding(w: Warmer) { w.phase.Claimed? || w.phase.Resolving? || w.phase.Resolved? || w.phase.Releasing? }

  /** A chain walked in full, and a chain end written down. */
  datatype Walk = Walk(from: string, end: string)
  datatype Record = Record(pid: string, from: string, url: string, at: int)

  datatype State = State(
    clock: int, cache: Cache, relays: map<nat, Relay>, warmers: map<nat, Warmer>,
    walks: set<Walk>, records: set<Record>)

  datatype Action =
    | Tick(now: int)
    | NewRelay(id: nat, pid: string, src: Source)
    | NewWarmer(id: nat, pid: string, src: Source)
    | RelayLookup(id: nat)
    | RelayShortcut(id: nat, a: Answer)
    | RelayForget(id: nat)
    | RelayWalk(id: nat, a: Answer)
    | RelayRemember(id: nat, purged: int)
    | RelayServe(id: nat)
    | RelayRefuse(id: nat)
    | WarmClaim(id: nat)
    | WarmStart(id: nat, started: bool)
    | WarmWalk(id: nat, a: Answer)
    | WarmRemember(id: nat, purged: int)
    | WarmRelease(id: nat)

  function WalkOf(src: Source, a: Answer): set<Walk> {
    if a.Answered? && a.end.Some? then {Walk(src.url, a.end.value)} else {}
  }

  function RecordOf(rules: Rules, pid: string, src: Source, a: Answer, at: int): set<Record> {
    match Learned(rules, src, a)
    case None => {}
    case Some(url) => if src.url == "" || url == "" then {} else {Record(pid, src.url, url, at)}
  }

  function StepRelay(rules: Rules, s: State, r: Relay, action: Action): Option<(Relay, State)> {
    match action
    case RelayLookup(_) =>
      if !r.phase.Asking? then None
      else
        var found := LookupOf(s.cache, r.pid, r.src.url, s.clock);
        Some((r.(phase := if found.Some? then TryingShortcut(found.value) else Walking), s))
    case RelayShortcut(_, a) =>
      if !r.phase.TryingShortcut? then None
      else Some((r.(phase := if Good(rules, a, r.src) then Serving(a, false) else Dropping, fetches := r.fetches + 1), s))
    case RelayForget(_) =>
      if !r.phase.Dropping? then None else Some((r.(phase := Walking), s.(cache := ForgottenIn(s.cache, r.pid))))
    case RelayWalk(_, a) =>
      if !r.phase.Walking? then None
      else Some((r.(phase := if a.Failed? then RelayDone else Walked(a), fetches := r.fetches + 1),
                 s.(walks := s.walks + WalkOf(r.src, a))))
    case RelayRemember(_, purged) =>
      if !r.phase.Walked? || purged > s.clock then None
      else Some((r.(phase := Serving(r.phase.a, true)),
                 s.(cache := Taught(rules, s.cache, r.pid, r.src, r.phase.a, purged, s.clock),
                    records := s.records + RecordOf(rules, r.pid, r.src, r.phase.a, s.clock))))
    case RelayServe(_) =>
      if !r.phase.Serving? then None
      else
        var a := r.phase.a;
        var refuse := a.Answered? && a.status in {OK_STATUS, PARTIAL} && !Gated(rules, a, r.src.mimeType);
        Some((r.(phase := if refuse then Refusing else RelayDone), s))
    case RelayRefuse(_) =>
      if !r.phase.Refusing? then None else Some((r.(phase := RelayDone), s.(cache := ForgottenIn(s.cache, r.pid))))
    case _ => None
  }

  function StepWarmer(rules: Rules, s: State, w: Warmer, action: Action): Option<(Warmer, State)> {
    match action
    case WarmClaim(_) =>
      if !w.phase.Wanting? then None
      else if Claimable(s.cache, w.pid, w.src.url, s.clock) then
        Some((w.(phase := Claimed, claims := w.claims + 1), s.(cache := ClaimedIn(s.cache, w.pid, w.src.url, s.clock))))
      else Some((w.(phase := WarmDone), s))
    case WarmStart(_, started) =>
      if !w.phase.Claimed? then None else Some((w.(phase := if started then Resolving else Releasing), s))
    case WarmWalk(_, a) =>
      if !w.phase.Resolving? then None
      else Some((w.(phase := if a.Failed? then Releasing else Resolved(a)), s.(walks := s.walks + WalkOf(w.src, a))))
    case WarmRemember(_, purged) =>
      if !w.phase.Resolved? || purged > s.clock then None
      else Some((w.(phase := Releasing),
                 s.(cache := Taught(rules, s.cache, w.pid, w.src, w.phase.a, purged, s.clock),
                    records := s.records + RecordOf(rules, w.pid, w.src, w.phase.a, s.clock))))
    case WarmRelease(_) =>
      if !w.phase.Releasing? then None
      else Some((w.(phase := WarmDone, releases := w.releases + 1), s.(cache := ReleasedIn(s.cache, w.pid))))
    case _ => None
  }

  /** One step of one actor, or the clock; none where the step is not that actor's next. */
  function Step(rules: Rules, s: State, action: Action): Option<State> {
    match action
    case Tick(now) => if now >= s.clock then Some(s.(clock := now)) else None
    case NewRelay(id, pid, src) =>
      if id in s.relays then None else Some(s.(relays := s.relays[id := Relay(pid, src, Asking, 0)]))
    case NewWarmer(id, pid, src) =>
      if id in s.warmers then None else Some(s.(warmers := s.warmers[id := Warmer(pid, src, Wanting, 0, 0)]))
    case RelayLookup(id) => AsRelay(rules, s, id, action)
    case RelayShortcut(id, _) => AsRelay(rules, s, id, action)
    case RelayForget(id) => AsRelay(rules, s, id, action)
    case RelayWalk(id, _) => AsRelay(rules, s, id, action)
    case RelayRemember(id, _) => AsRelay(rules, s, id, action)
    case RelayServe(id) => AsRelay(rules, s, id, action)
    case RelayRefuse(id) => AsRelay(rules, s, id, action)
    case WarmClaim(id) => AsWarmer(rules, s, id, action)
    case WarmStart(id, _) => AsWarmer(rules, s, id, action)
    case WarmWalk(id, _) => AsWarmer(rules, s, id, action)
    case WarmRemember(id, _) => AsWarmer(rules, s, id, action)
    case WarmRelease(id) => AsWarmer(rules, s, id, action)
  }

  function AsRelay(rules: Rules, s: State, id: nat, action: Action): Option<State> {
    if id !in s.relays then None
    else
      var next := StepRelay(rules, s, s.relays[id], action);
      if next.None? then None else Some(next.value.1.(relays := s.relays[id := next.value.0]))
  }

  function AsWarmer(rules: Rules, s: State, id: nat, action: Action): Option<State> {
    if id !in s.warmers then None
    else
      var next := StepWarmer(rules, s, s.warmers[id], action);
      if next.None? then None else Some(next.value.1.(warmers := s.warmers[id := next.value.0]))
  }

  const START := State(0, Cache(map[], {}), map[], map[], {}, {})

  /** Where a run of actions leads, if every one of them can be taken. */
  function Run(rules: Rules, s: State, actions: seq<Action>): Option<State>
    decreases |actions|
  {
    if actions == [] then Some(s)
    else
      var next := Step(rules, s, actions[0]);
      if next.None? then None else Run(rules, next.value, actions[1..])
  }

  // --------------------------------------------------------------------- the invariant

  /** Every entry was written down, off a full walk from its own enclosure, one TTL before it expires. */
  ghost predicate Founded(s: State) { Backed(s.cache.entries, s.records) && WalkedBefore(s.records, s.walks, s.clock) }

  ghost predicate Backed(entries: map<string, Route>, records: set<Record>) {
    forall pid :: pid in entries ==>
      Record(pid, entries[pid].from, entries[pid].url, entries[pid].expires - ROUTE_TTL) in records
  }

  ghost predicate WalkedBefore(records: set<Record>, walks: set<Walk>, clock: int) {
    forall r :: r in records ==> Walk(r.from, r.url) in walks && r.at <= clock
  }

  /** What a walk answered is among the walks until it is written down. */
  ghost predicate Walkers(s: State) {
    && (forall id :: id in s.relays && s.relays[id].phase.Walked? ==> WalkOf(s.relays[id].src, s.relays[id].phase.a) <= s.walks)
    && (forall id :: id in s.warmers && s.warmers[id].phase.Resolved? ==>
        s.warmers[id].phase.a.Answered? && WalkOf(s.warmers[id].src, s.warmers[id].phase.a) <= s.walks)
  }

  ghost predicate OneHolderEach(warmers: map<nat, Warmer>) {
    forall i, j :: i in warmers && j in warmers && Holding(warmers[i]) && Holding(warmers[j]) && warmers[i].pid == warmers[j].pid
      ==> i == j
  }

  /** The claims are the live warmers', one each, and none has been given back twice. */
  ghost predicate Claims(s: State) {
    && (forall id :: id in s.warmers && Holding(s.warmers[id]) ==> s.warmers[id].pid in s.cache.warming)
    && (forall pid :: pid in s.cache.warming ==> exists id :: id in s.warmers && Holding(s.warmers[id]) && s.warmers[id].pid == pid)
    && OneHolderEach(s.warmers)
    && (forall id :: id in s.warmers ==> ClaimCount(s.warmers[id]))
  }

  ghost predicate ClaimCount(w: Warmer) {
    && w.claims <= 1
    && (if w.phase.Wanting? then w.claims == 0 else Holding(w) ==> w.claims == 1)
    && w.releases == if w.phase.WarmDone? then w.claims else 0
  }

  /** Two fetches at most; nothing but a walk brings a bad answer to the listener. */
  ghost predicate RelaysSound(rules: Rules, s: State) { forall id :: id in s.relays ==> RelaySound(rules, s.relays[id]) }

  ghost predicate RelaySound(rules: Rules, r: Relay) {
    match r.phase
    case Asking => r.fetches == 0
    case TryingShortcut(_) => r.fetches == 0
    case Dropping => r.fetches == 1
    case Walking => r.fetches <= 1
    case Walked(a) => a.Answered? && r.fetches <= 2
    case Serving(a, walked) => a.Answered? && r.fetches <= 2 && (!walked ==> Good(rules, a, r.src) && r.fetches == 1)
    case Refusing => r.fetches <= 2
    case RelayDone => r.fetches <= 2
  }

  ghost predicate Inv(rules: Rules, s: State) {
    Bounded(s.cache) && Founded(s) && Walkers(s) && Claims(s) && RelaysSound(rules, s)
  }

  /** New walks, a later clock and other claims leave what is written down as well founded as it was. */
  lemma FoundedIn(s: State, t: State)
    requires Founded(s) && t.cache.entries == s.cache.entries && t.records == s.records && s.walks <= t.walks && s.clock <= t.clock
    ensures Founded(t)
  {
  }

  lemma TaughtFounded(rules: Rules, s: State, pid: string, src: Source, a: Answer, purged: int)
    requires Founded(s) && Bounded(s.cache) && a.Answered? && WalkOf(src, a) <= s.walks
    ensures
      var s' := s.(cache := Taught(rules, s.cache, pid, src, a, purged, s.clock),
                   records := s.records + RecordOf(rules, pid, src, a, s.clock));
      Founded(s') && Bounded(s'.cache) && s'.cache.warming == s.cache.warming
  {
    hide Learned, Bounded, RememberedIn, Backed, WalkedBefore;
    LearnedIs(rules, src, a);
    var learned := Learned(rules, src, a);
    assert s.records + {} == s.records;
    if learned.Some? {
      StaysBounded(s.cache, pid, src.url, learned.value, purged, s.clock);
      if src.url != "" && learned.value != "" {
        RememberedFounded(s.cache, s.records, pid, src.url, learned.value, purged, s.clock);
        StillWalked(s.records, s.walks, s.clock, Record(pid, src.url, learned.value, s.clock));
      } else {
        NothingToRemember(s.cache, pid, src.url, learned.value, purged, s.clock);
      }
    }
  }

  lemma NothingToRemember(c: Cache, pid: string, from: string, url: string, purged: int, at: int)
    requires from == "" || url == ""
    ensures RememberedIn(c, pid, from, url, purged, at) == c
  {
  }

  lemma LearnedIs(rules: Rules, src: Source, a: Answer)
    requires a.Answered?
    ensures Learned(rules, src, a).Some? ==> a.end == Learned(rules, src, a)
  {
    hide Good;
  }

  lemma RememberedFounded(c: Cache, records: set<Record>, pid: string, from: string, url: string, purged: int, at: int)
    requires Backed(c.entries, records) && from != "" && url != ""
    ensures
      var c' := RememberedIn(c, pid, from, url, purged, at);
      Backed(c'.entries, records + {Record(pid, from, url, at)}) && c'.warming == c.warming
  {
    hide MadeRoom;
    StillBacked(c.entries, records, pid, from, url, purged, at);
  }

  lemma StillBacked(entries: map<string, Route>, records: set<Record>, pid: string, from: string, url: string, purged: int, at: int)
    requires Backed(entries, records)
    ensures Backed(MadeRoom(entries, purged)[pid := Route(from, url, at + ROUTE_TTL)], records + {Record(pid, from, url, at)})
  {
    hide MadeRoom;
    RoomIsLess(entries, purged);
  }

  lemma StillWalked(records: set<Record>, walks: set<Walk>, clock: int, r: Record)
    requires WalkedBefore(records, walks, clock) && Walk(r.from, r.url) in walks && r.at <= clock
    ensures WalkedBefore(records + {r}, walks, clock)
  {
  }

  lemma RoomIsLess(entries: map<string, Route>, now: int)
    ensures forall k :: k in MadeRoom(entries, now) ==> k in entries && MadeRoom(entries, now)[k] == entries[k]
  {
  }

  lemma ForgetKeeps(s: State, pid: string)
    requires Founded(s) && Bounded(s.cache)
    ensures Founded(s.(cache := ForgottenIn(s.cache, pid))) && Bounded(ForgottenIn(s.cache, pid))
    ensures ForgottenIn(s.cache, pid).warming == s.cache.warming
  {
    StaysBounded(s.cache, pid, "", "", 0, 0);
  }

  /** What a relay's step does to the shared state, and what it leaves of the relay. */
  lemma RelayEffect(rules: Rules, s: State, r: Relay, action: Action)
    requires Founded(s) && Bounded(s.cache) && RelaySound(rules, r) && StepRelay(rules, s, r, action).Some?
    requires r.phase.Walked? ==> WalkOf(r.src, r.phase.a) <= s.walks
    ensures
      var (r', s') := StepRelay(rules, s, r, action).value;
      && Founded(s') && Bounded(s'.cache) && RelaySound(rules, r')
      && s'.relays == s.relays && s'.warmers == s.warmers && s'.cache.warming == s.cache.warming && s.walks <= s'.walks
      && (r'.phase.Walked? ==> WalkOf(r'.src, r'.phase.a) <= s'.walks)
  {
    hide LookupOf, Taught, RecordOf, WalkOf, Bounded, ForgottenIn, Gated, Founded;
    if action.RelayForget? || action.RelayRefuse? {
      ForgetKeeps(s, r.pid);
    } else if action.RelayRemember? {
      TaughtFounded(rules, s, r.pid, r.src, r.phase.a, action.purged);
    } else {
      FoundedIn(s, StepRelay(rules, s, r, action).value.1);
    }
  }

  lemma RelayStepKeeps(rules: Rules, s: State, id: nat, action: Action)
    requires Inv(rules, s) && AsRelay(rules, s, id, action).Some?
    ensures Inv(rules, AsRelay(rules, s, id, action).value)
  {
    hide Bounded, RelaySound, WalkOf, StepRelay, Holding, ClaimCount, OneHolderEach, Founded;
    RelayEffect(rules, s, s.relays[id], action);
    var (r', t) := StepRelay(rules, s, s.relays[id], action).value;
    FoundedIn(t, t.(relays := s.relays[id := r']));
  }

  /** What a warmer's step does to the shared state: the claims change with its holding one, and in no other way. */
  lemma WarmerEffect(rules: Rules, s: State, w: Warmer, action: Action)
    requires Founded(s) && Bounded(s.cache) && ClaimCount(w) && StepWarmer(rules, s, w, action).Some?
    requires w.phase.Resolved? ==> w.phase.a.Answered? && WalkOf(w.src, w.phase.a) <= s.walks
    ensures
      var (w', s') := StepWarmer(rules, s, w, action).value;
      && Founded(s') && Bounded(s'.cache) && ClaimCount(w') && w'.pid == w.pid
      && s'.relays == s.relays && s'.warmers == s.warmers && s.walks <= s'.walks
      && (w'.phase.Resolved? ==> w'.phase.a.Answered? && WalkOf(w'.src, w'.phase.a) <= s'.walks)
      && (Holding(w) == Holding(w') ==> s'.cache.warming == s.cache.warming)
      && (!Holding(w) && Holding(w') ==> w.pid !in s.cache.warming && s'.cache.warming == s.cache.warming + {w.pid})
      && (Holding(w) && !Holding(w') ==> s'.cache.warming == s.cache.warming - {w.pid})
  {
    hide LookupOf, Taught, RecordOf, WalkOf, Bounded, Founded, RememberedIn, ForgottenIn;
    if action.WarmRemember? {
      TaughtFounded(rules, s, w.pid, w.src, w.phase.a, action.purged);
    } else {
      StaysBounded(s.cache, w.pid, w.src.url, "", s.clock, 0);
      FoundedIn(s, StepWarmer(rules, s, w, action).value.1);
    }
  }

  lemma WarmerStepKeeps(rules: Rules, s: State, id: nat, action: Action)
    requires Inv(rules, s) && AsWarmer(rules, s, id, action).Some?
    ensures Inv(rules, AsWarmer(rules, s, id, action).value)
  {
    hide Bounded, RelaySound, WalkOf, StepWarmer, Holding, ClaimCount, Claims, Claimable, Founded;
    assert ClaimCount(s.warmers[id]) by { ClaimsCounted(s, id); }
    WarmerEffect(rules, s, s.warmers[id], action);
    var (w', t) := StepWarmer(rules, s, s.warmers[id], action).value;
    var s' := t.(warmers := s.warmers[id := w']);
    FoundedIn(t, s');
    ClaimsStep(s, s', id, w');
  }

  lemma ClaimsCounted(s: State, id: nat)
    requires Claims(s) && id in s.warmers
    ensures ClaimCount(s.warmers[id])
  {
    hide Holding, ClaimCount;
  }

  lemma ClaimsStep(s: State, s': State, id: nat, w': Warmer)
    requires Claims(s) && id in s.warmers && s'.warmers == s.warmers[id := w'] && ClaimCount(w') && w'.pid == s.warmers[id].pid
    requires Holding(s.warmers[id]) == Holding(w') ==> s'.cache.warming == s.cache.warming
    requires !Holding(s.warmers[id]) && Holding(w') ==>
      w'.pid !in s.cache.warming && s'.cache.warming == s.cache.warming + {w'.pid}
    requires Holding(s.warmers[id]) && !Holding(w') ==> s'.cache.warming == s.cache.warming - {w'.pid}
    ensures Claims(s')
  {
    hide Holding, ClaimCount;
    var ws, ws' := s.warmers, s'.warmers;
    assert OneHolderEach(ws');
    forall pid | pid in s'.cache.warming
      ensures exists i :: i in ws' && Holding(ws'[i]) && ws'[i].pid == pid
    {
      if pid == w'.pid && Holding(w') {
        assert ws'[id] == w';
      } else {
        var i :| i in ws && Holding(ws[i]) && ws[i].pid == pid;
        assert i in ws' && Holding(ws'[i]) && ws'[i].pid == pid;
      }
    }
    forall i | i in ws' && Holding(ws'[i])
      ensures ws'[i].pid in s'.cache.warming
    {
      assert i != id ==> Holding(ws[i]) && ws[i] == ws'[i];
    }
  }

  lemma NewWarmerKeeps(rules: Rules, s: State, id: nat, pid: string, src: Source)
    requires Inv(rules, s) && id !in s.warmers
    ensures Inv(rules, s.(warmers := s.warmers[id := Warmer(pid, src, Wanting, 0, 0)]))
  {
    hide Bounded, WalkOf, RelaySound, Founded;
    var s' := s.(warmers := s.warmers[id := Warmer(pid, src, Wanting, 0, 0)]);
    FoundedIn(s, s');
    forall p | p in s'.cache.warming
      ensures exists i :: i in s'.warmers && Holding(s'.warmers[i]) && s'.warmers[i].pid == p
    {
      var i :| i in s.warmers && Holding(s.warmers[i]) && s.warmers[i].pid == p;
      assert s'.warmers[i] == s.warmers[i];
    }
  }

  lemma StepKeeps(rules: Rules, s: State, action: Action)
    requires Inv(rules, s) && Step(rules, s, action).Some?
    ensures Inv(rules, Step(rules, s, action).value)
  {
    hide AsRelay, AsWarmer, Bounded, Founded, Holding, ClaimCount, WalkOf;
    match action
    case Tick(_) => FoundedIn(s, Step(rules, s, action).value);
    case NewRelay(_, _, _) => FoundedIn(s, Step(rules, s, action).value);
    case NewWarmer(id, pid, src) => NewWarmerKeeps(rules, s, id, pid, src);
    case RelayLookup(id) => RelayStepKeeps(rules, s, id, action);
    case RelayShortcut(id, _) => RelayStepKeeps(rules, s, id, action);
    case RelayForget(id) => RelayStepKeeps(rules, s, id, action);
    case RelayWalk(id, _) => RelayStepKeeps(rules, s, id, action);
    case RelayRemember(id, _) => RelayStepKeeps(rules, s, id, action);
    case RelayServe(id) => RelayStepKeeps(rules, s, id, action);
    case RelayRefuse(id) => RelayStepKeeps(rules, s, id, action);
    case WarmClaim(id) => WarmerStepKeeps(rules, s, id, action);
    case WarmStart(id, _) => WarmerStepKeeps(rules, s, id, action);
    case WarmWalk(id, _) => WarmerStepKeeps(rules, s, id, action);
    case WarmRemember(id, _) => WarmerStepKeeps(rules, s, id, action);
    case WarmRelease(id) => WarmerStepKeeps(rules, s, id, action);
  }

  lemma {:induction false} RunKeeps(rules: Rules, s: State, actions: seq<Action>)
    requires Inv(rules, s) && Run(rules, s, actions).Some?
    ensures Inv(rules, Run(rules, s, actions).value)
    decreases |actions|
  {
    hide Inv, Step;
    if actions != [] {
      StepKeeps(rules, s, actions[0]);
      RunKeeps(rules, Step(rules, s, actions[0]).value, actions[1..]);
    }
  }

  ghost predicate Reachable(rules: Rules, s: State) { exists actions :: Run(rules, START, actions) == Some(s) }

  lemma ReachableInv(rules: Rules, s: State)
    requires Reachable(rules, s)
    ensures Inv(rules, s)
  {
    hide Inv, Run;
    StartInv(rules);
    var actions :| Run(rules, START, actions) == Some(s);
    RunKeeps(rules, START, actions);
  }

  lemma StartInv(rules: Rules)
    ensures Inv(rules, START)
  {
  }

  // ----------------------------------------------------------------------- what it comes to

  /** Whatever any lookup returns was written down, no longer ago than the TTL, off a full walk from that very enclosure. */
  lemma LookupsAreFounded(rules: Rules, s: State, pid: string, from: string)
    requires Reachable(rules, s) && LookupOf(s.cache, pid, from, s.clock).Some?
    ensures
      var url := LookupOf(s.cache, pid, from, s.clock).value;
      && Walk(from, url) in s.walks
      && exists r :: r in s.records && r.pid == pid && r.from == from && r.url == url && r.at <= s.clock <= r.at + ROUTE_TTL
  {
    ReachableInv(rules, s);
    var e := s.cache.entries[pid];
    assert Record(pid, e.from, e.url, e.expires - ROUTE_TTL) in s.records;
  }

  /** At most so many routes and walks ahead, and at most one live warmer an episode. */
  lemma CeilingsHold(rules: Rules, s: State)
    requires Reachable(rules, s)
    ensures |s.cache.entries| <= MAX_ROUTES && |s.cache.warming| <= MAX_WARMS
    ensures OneHolderEach(s.warmers)
    ensures forall pid :: pid in s.cache.warming <==> exists id :: id in s.warmers && Holding(s.warmers[id]) && s.warmers[id].pid == pid
  {
    ReachableInv(rules, s);
  }

  /** A warmer that is through has given back exactly what it claimed; one that is not has given back nothing. */
  lemma ClaimsReleasedOnce(rules: Rules, s: State, id: nat)
    requires Reachable(rules, s) && id in s.warmers
    ensures s.warmers[id].claims <= 1
    ensures s.warmers[id].releases == if s.warmers[id].phase.WarmDone? then s.warmers[id].claims else 0
  {
    hide Founded, Walkers, RelaysSound, Bounded;
    ReachableInv(rules, s);
    assert ClaimCount(s.warmers[id]);
  }

  /** Two fetches a relay at most, and only a walk's answer reaches the listener unfit. */
  lemma RelaysAreTransparent(rules: Rules, s: State, id: nat)
    requires Reachable(rules, s) && id in s.relays
    ensures s.relays[id].fetches <= 2
    ensures s.relays[id].phase.Serving? && !Good(rules, s.relays[id].phase.a, s.relays[id].src) ==> s.relays[id].phase.walked
  {
    hide Founded, Walkers, Claims, Bounded, Good;
    ReachableInv(rules, s);
    assert RelaySound(rules, s.relays[id]);
  }

  /** An entry comes to be, or to be renewed, by no step but the writing down of a walk's own end. */
  lemma OnlyWalksRenew(rules: Rules, s: State, action: Action, pid: string)
    requires Step(rules, s, action).Some?
    requires
      var s' := Step(rules, s, action).value;
      pid in s'.cache.entries && (pid !in s.cache.entries || s'.cache.entries[pid] != s.cache.entries[pid])
    ensures action.RelayRemember? || action.WarmRemember?
    ensures Step(rules, s, action).value.cache.entries[pid].expires == s.clock + ROUTE_TTL
    ensures action.RelayRemember? ==> action.id in s.relays && s.relays[action.id].pid == pid && s.relays[action.id].phase.Walked?
    ensures action.WarmRemember? ==> action.id in s.warmers && s.warmers[action.id].pid == pid && s.warmers[action.id].phase.Resolved?
  {
    hide Good, LookupOf;
  }

  lemma ClockRises(rules: Rules, s: State, action: Action)
    requires Step(rules, s, action).Some?
    ensures s.clock <= Step(rules, s, action).value.clock
  {
    hide Good, LookupOf, Taught, RecordOf, WalkOf, Claimable, ClaimedIn;
  }

  /** No entry of the episode is older than `since`. */
  ghost predicate NoneBefore(s: State, pid: string, since: int) {
    since <= s.clock && (pid in s.cache.entries ==> s.cache.entries[pid].expires >= since + ROUTE_TTL)
  }

  lemma {:induction false} NoneBeforeKept(rules: Rules, s: State, actions: seq<Action>, pid: string, since: int)
    requires NoneBefore(s, pid, since) && Run(rules, s, actions).Some?
    ensures NoneBefore(Run(rules, s, actions).value, pid, since)
    decreases |actions|
  {
    hide Step;
    if actions != [] {
      var next := Step(rules, s, actions[0]).value;
      ClockRises(rules, s, actions[0]);
      if pid in next.cache.entries && (pid !in s.cache.entries || next.cache.entries[pid] != s.cache.entries[pid]) {
        OnlyWalksRenew(rules, s, actions[0], pid);
      }
      NoneBeforeKept(rules, next, actions[1..], pid, since);
    }
  }

  /**
   A relay whose remembered end failed it drops the entry, and whatever the
   others do from then on, the episode's entry is one recorded since.
   */
  lemma FailedEndsStayForgotten(rules: Rules, s: State, id: nat, actions: seq<Action>)
    requires Step(rules, s, RelayForget(id)).Some? && Run(rules, Step(rules, s, RelayForget(id)).value, actions).Some?
    ensures id in s.relays
    ensures
      var pid, end := s.relays[id].pid, Run(rules, Step(rules, s, RelayForget(id)).value, actions).value;
      && pid !in Step(rules, s, RelayForget(id)).value.cache.entries
      && (pid in end.cache.entries ==> end.cache.entries[pid].expires >= s.clock + ROUTE_TTL)
  {
    hide Run, LookupOf, Taught, RecordOf, WalkOf;
    var next := Step(rules, s, RelayForget(id)).value;
    NoneBeforeKept(rules, next, actions, s.relays[id].pid, s.clock);
  }

  /** A warmer that has claimed is through after at most four more of its own steps, the last of them the release. */
  function StepsLeft(w: Warmer): nat {
    match w.phase
    case Wanting => 5
    case Claimed => 4
    case Resolving => 3
    case Resolved(_) => 2
    case Releasing => 1
    case WarmDone => 0
  }

  lemma WarmersEnd(rules: Rules, s: State, id: nat, action: Action)
    requires AsWarmer(rules, s, id, action).Some?
    ensures StepsLeft(AsWarmer(rules, s, id, action).value.warmers[id]) < StepsLeft(s.warmers[id])
    ensures Holding(s.warmers[id]) && AsWarmer(rules, s, id, action).value.warmers[id].phase.WarmDone? ==> action.WarmRelease?
  {
    hide Good, LookupOf;
  }
}
