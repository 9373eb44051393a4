/**
 The client's cache of alert reasoning (client/src/hooks/useAlertReasoning.ts): a session cache, a
 table of requests in flight and a generation counter, under responses that arrive in any order.
 */
module ReasoningCache {
  import opened Text

  // Responses

  datatype Status = StatusAvailable | StatusUnavailable | StatusNotApplicable | StatusOther

  datatype Response = Body(status: Status, reasoning: Option<string>) | HttpError(code: nat) | NetworkError

  datatype Outcome = Available(reasoning: string) | Unavailable | NotApplicable | Error(retryable: bool)

  predicate IsSpace(c: char) { c == ' ' || '\t' <= c <= '\r' }

  predicate IsBlank(text: string) { All(IsSpace, text) }

  function ToOutcome(r: Response): Outcome {
    match r
    case Body(StatusAvailable, reasoning) =>
      if reasoning.None? || IsBlank(reasoning.value) then Unavailable else Available(reasoning.value)
    case Body(StatusUnavailable, _) => Unavailable
    case Body(StatusNotApplicable, _) => NotApplicable
    case Body(StatusOther, _) => Error(true)
    case HttpError(code) => Error(!(code == 404 || code == 400))
    case NetworkError => Error(true)
  }

  /** There is something to read in the text: a character other than a space and those from tab to return. */
  predicate IsReadable(text: string) {
    exists i :: 0 <= i < |text| && !(9 <= text[i] as int <= 13) && text[i] as int != 32
  }

  /** What a response comes to, kind by kind. */
  lemma {:induction false} OutcomeExactly(r: Response)
    ensures forall x :: ToOutcome(r) == Available(x) <==> r == Body(StatusAvailable, Some(x)) && IsReadable(x)
    ensures ToOutcome(r) == Unavailable <==>
            || (r.Body? && r.status == StatusUnavailable)
            || (r.Body? && r.status == StatusAvailable && (r.reasoning.None? || !IsReadable(r.reasoning.value)))
    ensures ToOutcome(r) == NotApplicable <==> r.Body? && r.status == StatusNotApplicable
    ensures ToOutcome(r) == Error(false) <==> r == HttpError(400) || r == HttpError(404)
    ensures ToOutcome(r) == Error(true) <==>
            r.NetworkError? || (r.HttpError? && r.code != 400 && r.code != 404) || (r.Body? && r.status == StatusOther)
  {
    hide IsBlank, IsReadable;
    if r.Body? && r.reasoning.Some? {
      ReadableIs(r.reasoning.value);
    }
  }

  lemma {:induction false} ReadableIs(text: string)
    ensures IsBlank(text) <==> !IsReadable(text)
  {
  }

  // The store and the steps that change it

  /** A request is waiting for its response, then its result is known, then its last callback has run. */
  datatype Stage = Waiting | Settled(outcome: Outcome) | Finished(outcome: Outcome)

  datatype Request = Request(key: string, generation: nat, stage: Stage)

  /** Requests are named by their place in the order in which they were made. */
  datatype Store = Store(cache: map<string, Outcome>, inFlight: map<string, nat>, generation: nat, requests: seq<Request>)

  const EMPTY := Store(map[], map[], 0, [])

  datatype Action =
    | Load(key: string)                      // a hook that may fetch asks for a key
    | Settle(id: nat, response: Response)    // the response is turned into a result
    | Finish(id: nat)                        // the request is taken off the table
    | Clear                                  // logout

  predicate Enabled(s: Store, a: Action) {
    match a
    case Settle(id, _) => id < |s.requests| && s.requests[id].stage.Waiting?
    case Finish(id) => id < |s.requests| && s.requests[id].stage.Settled?
    case _ => true
  }

  function Fetch(s: Store, key: string): Store {
    if key in s.inFlight then s
    else s.(inFlight := s.inFlight[key := |s.requests|], requests := s.requests + [Request(key, s.generation, Waiting)])
  }

  function SettleRequest(s: Store, id: nat, outcome: Outcome): Store
    requires id < |s.requests|
  {
    var r := s.requests[id];
    var s' := s.(requests := s.requests[id := r.(stage := Settled(outcome))]);
    if outcome.Available? && r.generation == s.generation then s'.(cache := s.cache[r.key := outcome]) else s'
  }

  function FinishRequest(s: Store, id: nat): Store
    requires id < |s.requests| && s.requests[id].stage.Settled?
  {
    var r := s.requests[id];
    var s' := s.(requests := s.requests[id := r.(stage := Finished(r.stage.outcome))]);
    if r.key in s.inFlight && s.inFlight[r.key] == id then s'.(inFlight := s.inFlight - {r.key}) else s'
  }

  function Do(s: Store, a: Action): Store
    requires Enabled(s, a)
  {
    match a
    case Load(key) => if key in s.cache then s else Fetch(s, key)
    case Settle(id, response) => SettleRequest(s, id, ToOutcome(response))
    case Finish(id) => FinishRequest(s, id)
    case Clear => Store(map[], map[], s.generation + 1, s.requests)
  }

  // What every step keeps

  /** The table holds exactly the current generation's requests that have not finished. */
  ghost predicate TableExact(s: Store) {
    && (forall k :: k in s.inFlight ==>
          var id := s.inFlight[k];
          id < |s.requests| && s.requests[id].key == k && s.requests[id].generation == s.generation && !s.requests[id].stage.Finished?)
    && (forall id :: 0 <= id < |s.requests| && s.requests[id].generation == s.generation && !s.requests[id].stage.Finished? ==>
          s.requests[id].key in s.inFlight && s.inFlight[s.requests[id].key] == id)
  }

  predicate HasResult(r: Request, outcome: Outcome) { r.stage == Settled(outcome) || r.stage == Finished(outcome) }

  predicate IsUsable(r: Request) { !r.stage.Waiting? && r.stage.outcome.Available? }

  /** Two requests for the same key in the same generation. */
  predicate Rivals(a: Request, b: Request) { a.key == b.key && a.generation == b.generation }

  predicate IsSpent(r: Request) { r.stage.Finished? && !r.stage.outcome.Available? }

  /** The request that brought a cached result. */
  predicate Brought(s: Store, id: nat, k: string) {
    id < |s.requests| && s.requests[id].key == k && s.requests[id].generation == s.generation && k in s.cache &&
    HasResult(s.requests[id], s.cache[k])
  }

  /** Every cached result is a usable one that a request of the current generation brought. */
  ghost predicate CacheSound(s: Store) {
    forall k :: k in s.cache ==>
      s.cache[k].Available? && !IsBlank(s.cache[k].reasoning) && exists id :: Brought(s, id, k)
  }

  /** Every usable result of the current generation is cached. */
  ghost predicate CacheComplete(s: Store) {
    forall id :: 0 <= id < |s.requests| && s.requests[id].generation == s.generation && IsUsable(s.requests[id]) ==>
      s.requests[id].key in s.cache
  }

  /** A second request for a key in one generation comes only after the first has finished without a
      usable result. */
  ghost predicate NeverTwice(s: Store) {
    forall i, j :: 0 <= i < j < |s.requests| && Rivals(s.requests[i], s.requests[j]) ==> IsSpent(s.requests[i])
  }

  ghost predicate NoneNewer(s: Store) {
    forall id :: 0 <= id < |s.requests| ==> s.requests[id].generation <= s.generation
  }

  ghost predicate Inv(s: Store) {
    TableExact(s) && CacheSound(s) && CacheComplete(s) && NeverTwice(s) && NoneNewer(s)
  }

  /** The conditions on the table, and those on the cache. */
  ghost predicate TableOk(s: Store) { TableExact(s) && NeverTwice(s) && NoneNewer(s) }

  ghost predicate CacheOk(s: Store) { CacheSound(s) && CacheComplete(s) }

  lemma {:induction false} LoadKeeps(s: Store, key: string)
    requires Inv(s)
    ensures Inv(Do(s, Load(key)))
  {
    hide IsBlank;
    LoadCache(s, key);
    if key !in s.cache && key !in s.inFlight {
      NewIsFree(s, key);
      LoadTable(s, key);
    }
  }

  /** Where a new request is made, earlier ones for the key are spent. */
  lemma {:induction false} NewIsFree(s: Store, key: string)
    requires Inv(s) && key !in s.cache && key !in s.inFlight
    ensures forall i :: 0 <= i < |s.requests| && s.requests[i].key == key && s.requests[i].generation == s.generation ==> IsSpent(s.requests[i])
  {
    hide IsBlank;
  }

  lemma {:induction false} LoadTable(s: Store, key: string)
    requires TableOk(s) && key !in s.inFlight
    requires forall i :: 0 <= i < |s.requests| && s.requests[i].key == key && s.requests[i].generation == s.generation ==> IsSpent(s.requests[i])
    ensures TableOk(Fetch(s, key))
  {
  }

  lemma {:induction false} LoadCache(s: Store, key: string)
    requires CacheOk(s)
    ensures CacheOk(Fetch(s, key))
  {
    hide IsBlank;
    var s' := Fetch(s, key);
    forall k | k in s'.cache ensures exists id :: Brought(s', id, k) {
      var id :| Brought(s, id, k);
      assert Brought(s', id, k);
    }
  }

  lemma {:induction false} SettleKeeps(s: Store, id: nat, outcome: Outcome)
    requires Inv(s) && id < |s.requests| && s.requests[id].stage.Waiting?
    requires outcome.Available? ==> !IsBlank(outcome.reasoning)
    ensures Inv(SettleRequest(s, id, outcome))
  {
    hide IsBlank, TableExact, NeverTwice, NoneNewer, CacheSound, CacheComplete, SettleRequest;
    SettleTable(s, id, outcome);
    SettleCache(s, id, outcome);
  }

  lemma {:induction false} SettleTable(s: Store, id: nat, outcome: Outcome)
    requires TableOk(s) && id < |s.requests| && s.requests[id].stage.Waiting?
    ensures TableOk(SettleRequest(s, id, outcome))
  {
  }

  lemma {:induction false} SettleCache(s: Store, id: nat, outcome: Outcome)
    requires CacheOk(s) && id < |s.requests| && s.requests[id].stage.Waiting?
    requires outcome.Available? ==> !IsBlank(outcome.reasoning)
    ensures CacheOk(SettleRequest(s, id, outcome))
  {
    hide IsBlank;
    var s', key := SettleRequest(s, id, outcome), s.requests[id].key;
    forall k | k in s'.cache
      ensures s'.cache[k].Available? && !IsBlank(s'.cache[k].reasoning) && exists i :: Brought(s', i, k)
    {
      if k in s.cache && s'.cache[k] == s.cache[k] {
        var i :| Brought(s, i, k);
        assert Brought(s', i, k);
      } else {
        assert Brought(s', id, k);
      }
    }
  }

  lemma {:induction false} FinishKeeps(s: Store, id: nat)
    requires Inv(s) && id < |s.requests| && s.requests[id].stage.Settled?
    ensures Inv(FinishRequest(s, id))
  {
    hide IsBlank, TableExact, NeverTwice, NoneNewer, CacheSound, CacheComplete, FinishRequest;
    FinishTable(s, id);
    FinishCache(s, id);
  }

  lemma {:induction false} FinishTable(s: Store, id: nat)
    requires TableOk(s) && id < |s.requests| && s.requests[id].stage.Settled?
    ensures TableOk(FinishRequest(s, id))
  {
  }

  lemma {:induction false} FinishCache(s: Store, id: nat)
    requires CacheOk(s) && id < |s.requests| && s.requests[id].stage.Settled?
    ensures CacheOk(FinishRequest(s, id))
  {
    hide IsBlank;
    var s' := FinishRequest(s, id);
    forall k | k in s'.cache ensures exists i :: Brought(s', i, k) {
      var i :| Brought(s, i, k);
      assert Brought(s', i, k);
    }
  }

  /** Every step keeps the invariant, whichever response arrives and whenever it does. */
  lemma {:induction false} StepKeeps(s: Store, a: Action)
    requires Inv(s) && Enabled(s, a)
    ensures Inv(Do(s, a))
  {
    match a
    case Load(key) => LoadKeeps(s, key);
    case Settle(id, response) => SettleKeeps(s, id, ToOutcome(response));
    case Finish(id) => FinishKeeps(s, id);
    case Clear =>
  }

  // Runs

  ghost predicate Reaches(s: Store, run: seq<Action>, t: Store)
    decreases |run|
  {
    if run == [] then s == t else Enabled(s, run[0]) && Reaches(Do(s, run[0]), run[1..], t)
  }

  lemma {:induction false} RunKeeps(s: Store, run: seq<Action>, t: Store)
    requires Inv(s) && Reaches(s, run, t)
    ensures Inv(t)
    decreases |run|
  {
    hide Inv, Do, Enabled;
    if run != [] {
      StepKeeps(s, run[0]);
      RunKeeps(Do(s, run[0]), run[1..], t);
    }
  }

  /** In every run of a session: what is cached was brought by a request of the current generation, a
      key has at most one unfinished request per generation, and no request is made for a key whose
      usable result is known in that generation. */
  lemma {:induction false} SessionSafe(run: seq<Action>, t: Store)
    requires Reaches(EMPTY, run, t)
    ensures forall k :: k in t.cache ==> t.cache[k].Available? && exists id :: Brought(t, id, k)
    ensures forall i, j :: 0 <= i < j < |t.requests| && Rivals(t.requests[i], t.requests[j]) ==> IsSpent(t.requests[i])
  {
    RunKeeps(EMPTY, run, t);
  }

  /** A completion takes off the table at most its own entry; one from an earlier generation leaves
      table and cache as they are. */
  lemma {:induction false} LateCompletion(s: Store, id: nat, response: Response)
    requires Inv(s) && id < |s.requests|
    ensures s.requests[id].stage.Settled? ==>
              forall k :: k in s.inFlight && s.inFlight[k] != id ==>
                k in FinishRequest(s, id).inFlight && FinishRequest(s, id).inFlight[k] == s.inFlight[k]
    ensures s.requests[id].generation != s.generation ==>
              && SettleRequest(s, id, ToOutcome(response)).cache == s.cache
              && (s.requests[id].stage.Settled? ==> FinishRequest(s, id).inFlight == s.inFlight)
  {
  }

  /** Once a result is cached, no further request for its key is made until the cache is cleared. */
  lemma {:induction false} CachedStays(s: Store, run: seq<Action>, t: Store, k: string)
    requires Inv(s) && k in s.cache && Reaches(s, run, t) && Clear !in run
    ensures k in t.cache && t.generation == s.generation
    ensures forall id :: |s.requests| <= id < |t.requests| ==> t.requests[id].key != k
    decreases |run|
  {
    hide Inv;
    if run != [] {
      StepKeeps(s, run[0]);
      var s' := Do(s, run[0]);
      assert run[0] in run && forall a :: a in run[1..] ==> a in run;
      CachedStays(s', run[1..], t, k);
      KeysStay(s', run[1..], t);
    }
  }

  /** Requests keep their names, keys and generations. */
  lemma {:induction false} KeysStay(s: Store, run: seq<Action>, t: Store)
    requires Reaches(s, run, t)
    ensures |s.requests| <= |t.requests|
    ensures forall id :: 0 <= id < |s.requests| ==>
              t.requests[id].key == s.requests[id].key && t.requests[id].generation == s.requests[id].generation
    decreases |run|
  {
    if run != [] {
      KeysStay(Do(s, run[0]), run[1..], t);
    }
  }

  // The module's variables and the functions that change them

  datatype View = Idle | Loading | Shown(outcome: Outcome)

  class Session {
    var cache: map<string, Outcome>
    var inFlight: map<string, nat>
    var generation: nat
    var requests: seq<Request>

    ghost function Contents(): Store
      reads this
    {
      Store(cache, inFlight, generation, requests)
    }

    ghost predicate Valid()
      reads this
    {
      Inv(Contents())
    }

    constructor ()
      ensures Valid() && Contents() == EMPTY
    {
      cache, inFlight, generation, requests := map[], map[], 0, [];
    }

    method ClearCache()
      requires Valid()
      modifies this
      ensures Valid() && Contents() == Do(old(Contents()), Clear)
    {
      StepKeeps(Contents(), Clear);
      generation := generation + 1;
      cache := map[];
      inFlight := map[];
    }

    /** The pending request for the key, or a new one. */
    method FetchReasoning(key: string) returns (id: nat)
      requires Valid()
      modifies this
      ensures Contents() == Fetch(old(Contents()), key) && (key !in cache ==> Valid())
      ensures id < |requests| && requests[id].key == key && !requests[id].stage.Finished?
    {
      StepKeeps(Contents(), Load(key));
      if key in inFlight {
        return inFlight[key];
      }
      id := |requests|;
      requests := requests + [Request(key, generation, Waiting)];
      inFlight := inFlight[key := id];
    }

    method OnResponse(id: nat, response: Response)
      requires Valid() && Enabled(Contents(), Settle(id, response))
      modifies this
      ensures Valid() && Contents() == Do(old(Contents()), Settle(id, response))
    {
      StepKeeps(Contents(), Settle(id, response));
      var outcome, r := ToOutcome(response), requests[id];
      requests := requests[id := r.(stage := Settled(outcome))];
      if outcome.Available? && r.generation == generation {
        cache := cache[r.key := outcome];
      }
    }

    method OnFinished(id: nat)
      requires Valid() && Enabled(Contents(), Finish(id))
      modifies this
      ensures Valid() && Contents() == Do(old(Contents()), Finish(id))
    {
      StepKeeps(Contents(), Finish(id));
      var r := requests[id];
      requests := requests[id := r.(stage := Finished(r.stage.outcome))];
      if r.key in inFlight && inFlight[r.key] == id {
        inFlight := inFlight - {r.key};
      }
    }

    /** What a hook shows after `load`, and the request whose result it will show next, if it waits. */
    method LoadKey(key: string, force: bool, view: View) returns (now: View, waitsFor: Option<nat>)
      requires Valid()
      modifies this
      ensures Valid()
      ensures key in old(cache) ==> now == Shown(old(cache)[key])
      ensures waitsFor.Some? <==> key !in old(cache) && (view == Idle || (force && view != Loading))
      ensures Contents() == if waitsFor.Some? then Do(old(Contents()), Load(key)) else old(Contents())
      ensures waitsFor.Some? ==> now == Loading && waitsFor.value < |requests| && requests[waitsFor.value].key == key
      ensures waitsFor.None? && key !in old(cache) ==> now == view
    {
      waitsFor := None;
      if key in cache {
        return Shown(cache[key]), None;
      }
      if !force && view != Idle {
        return view, None;
      }
      if view == Loading {
        return view, None;
      }
      now := Loading;
      var id := FetchReasoning(key);
      waitsFor := Some(id);
    }
  }
}
