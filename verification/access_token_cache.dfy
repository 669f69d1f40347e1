/** The preferred access-token cache: entries are keyed on the whole request
    (user, selected accounts, scope) and hold the access token itself. */
module AccessTokenCache {
  import opened Wrappers
  import opened Tokens
  import Seqs

  datatype Item = Item(key: Key, accessToken: string)

  /** The cache list in insertion order and the two public counters. */
  datatype Cache = Cache(items: seq<Item>, hits: nat, misses: nat)

  /** A freshly constructed cache. */
  const Empty: Cache := Cache([], 0, 0)

  /** The test personas and sentinels a caller may ask for; `Undefined` stands
      for every other value the enumeration can hold. */
  datatype TokenType =
    | MaryMoss | SteveKennedy | DewayneSteve | Business1 | Business2 | Beverage | KamillaSmith
    | InvalidFoo | InvalidEmpty | InvalidOmit
    | Undefined(code: int)

  /** What the persona directory gives for a token type: its user id and the
      ids of all its accounts. */
  datatype Persona = Persona(userId: string, allAccountIds: string)

  predicate IsPersona(t: TokenType)
  {
    t in {MaryMoss, SteveKennedy, DewayneSteve, Business1, Business2, Beverage, KamillaSmith}
  }

  predicate InCache(items: seq<Item>, k: Key)
  {
    exists i :: 0 <= i < |items| && items[i].key == k
  }

  /** No two entries share a key. */
  predicate UniqueKeys(items: seq<Item>)
  {
    forall i, j :: 0 <= i < j < |items| ==> items[i].key != items[j].key
  }

  /** Position of the entry `List.Find` returns for key `k`. */
  function Find(items: seq<Item>, k: Key): Option<nat>
  {
    Seqs.FirstIndex(items, (it: Item) => it.key == k)
  }

  /** `GetAccessToken(userId, selectedAccounts, scope)`: `flow` is what the
      authorise/consent flow would return, used only on a miss. */
  function GetAccessToken(c: Cache, k: Key, flow: TokenResponse): (o: Outcome<Cache, string>)
    // exactly one counter moves, whether or not the call throws
    ensures o.state.hits + o.state.misses == c.hits + c.misses + 1
    ensures o.state.hits >= c.hits && o.state.misses >= c.misses
    // hit: the first entry with an equal key answers; nothing else happens
    ensures InCache(c.items, k) ==>
      && o.state == c.(hits := c.hits + 1)
      && o.call.None?
      && o.result.Ok?
      && exists i :: 0 <= i < |c.items| && c.items[i].key == k
                     && (forall j :: 0 <= j < i ==> c.items[j].key != k)
                     && o.result.value == c.items[i].accessToken
    // miss: the flow runs for this key
    ensures !InCache(c.items, k) ==>
      && o.state.hits == c.hits
      && o.state.misses == c.misses + 1
      && o.call == Some(Authorise(k))
    ensures !InCache(c.items, k) && Complete(flow) ==>
      && o.state.items == c.items + [Item(k, flow.accessToken.value)]
      && o.result == Ok(flow.accessToken.value)
    // an incomplete response throws and stores nothing
    ensures !InCache(c.items, k) && !Complete(flow) ==>
      && o.state.items == c.items
      && o.result == Err(if flow.accessToken.None? then AccessTokenNull(AuthConsentFlow)
                         else RefreshTokenNull(AuthConsentFlow))
    ensures UniqueKeys(c.items) ==> UniqueKeys(o.state.items)
  {
    match Find(c.items, k)
    case Some(i) =>
      Outcome(c.(hits := c.hits + 1), None, Ok(c.items[i].accessToken))
    case None =>
      var counted := c.(misses := c.misses + 1);
      match CheckResponse(AuthConsentFlow, flow)
      case Err(e) => Outcome(counted, Some(Authorise(k)), Err(e))
      case Ok(pair) =>
        Outcome(counted.(items := c.items + [Item(k, pair.accessToken)]),
                Some(Authorise(k)), Ok(pair.accessToken))
  }

  /** The lookup key a persona resolves to. */
  function PersonaKey(p: Persona, scope: string): Key
  {
    Key(p.userId, p.allAccountIds, scope)
  }

  /** `GetAccessToken(tokenType, scope)`: the seven personas delegate to the keyed
      lookup through the persona directory `personas`; the three sentinels return
      fixed invalid tokens; any other value throws. */
  function GetAccessTokenFor(c: Cache, t: TokenType, scope: string,
                             personas: TokenType -> Persona, flow: TokenResponse)
    : (o: Outcome<Cache, Option<string>>)
    ensures IsPersona(t) ==>
      var inner := GetAccessToken(c, PersonaKey(personas(t), scope), flow);
      && o.state == inner.state
      && o.call == inner.call
      && (o.result.Ok? <==> inner.result.Ok?)
      && (inner.result.Ok? ==> o.result.value == Some(inner.result.value))
      && (inner.result.Err? ==> o.result.error == inner.result.error)
    // sentinels and unknown values touch neither the cache nor a collaborator
    ensures !IsPersona(t) ==> o.state == c && o.call.None?
    ensures t == InvalidFoo ==> o.result == Ok(Some("foo"))
    ensures t == InvalidEmpty ==> o.result == Ok(Some(""))
    ensures t == InvalidOmit ==> o.result == Ok(None)
    ensures t.Undefined? <==> o.result == Err(UnknownTokenType)
  {
    match t
    case InvalidFoo => Outcome(c, None, Ok(Some("foo")))
    case InvalidEmpty => Outcome(c, None, Ok(Some("")))
    case InvalidOmit => Outcome(c, None, Ok(None))
    case Undefined(_) => Outcome(c, None, Err(UnknownTokenType))
    case _ =>
      var inner := GetAccessToken(c, PersonaKey(personas(t), scope), flow);
      match inner.result
      case Ok(token) => Outcome(inner.state, inner.call, Ok(Some(token)))
      case Err(e) => Outcome(inner.state, inner.call, Err(e))
  }

  /** One keyed call and the response its flow would get. */
  datatype Query = Query(key: Key, flow: TokenResponse)

  /** The cache after a sequence of calls made one after another; a call that
      throws still leaves its counter bumped. */
  function Run(c: Cache, qs: seq<Query>): (r: Cache)
    ensures r.hits + r.misses == c.hits + c.misses + |qs|
    ensures r.hits >= c.hits && r.misses >= c.misses
    // entries are only ever appended, and only on a miss
    ensures c.items <= r.items
    ensures |r.items| - |c.items| <= r.misses - c.misses
    ensures UniqueKeys(c.items) ==> UniqueKeys(r.items)
    decreases |qs|
  {
    if |qs| == 0 then c
    else Run(GetAccessToken(c, qs[0].key, qs[0].flow).state, qs[1..])
  }

  /** A call that succeeded makes the next call with the same key a hit that
      returns the same token, whatever the flow would have answered. */
  lemma SecondCallHits(c: Cache, k: Key, flow1: TokenResponse, flow2: TokenResponse)
    requires GetAccessToken(c, k, flow1).result.Ok?
    ensures var first := GetAccessToken(c, k, flow1);
            var second := GetAccessToken(first.state, k, flow2);
            && second.call.None?
            && second.result == first.result
            && second.state == first.state.(hits := first.state.hits + 1)
  {
    var first := GetAccessToken(c, k, flow1);
    if !InCache(c.items, k) {
      var items := first.state.items;
      assert items[|items| - 1].key == k;
      assert InCache(items, k);
    }
  }

  /** A flow that returned an incomplete response stores nothing, so the next
      call with the same key runs the flow again. */
  lemma FailedFlowStillMisses(c: Cache, k: Key, flow1: TokenResponse, flow2: TokenResponse)
    requires !InCache(c.items, k) && !Complete(flow1)
    ensures var first := GetAccessToken(c, k, flow1);
            var second := GetAccessToken(first.state, k, flow2);
            && first.result.Err?
            && first.state.misses == c.misses + 1
            && second.call == Some(Authorise(k))
            && second.state.misses == c.misses + 2
  {
  }

  /** Once a key is cached, any number of further calls with it are hits: the
      entries stay as they are, no flow runs and only `Hits` grows. */
  lemma {:induction false} RepeatedCallsHit(c: Cache, k: Key, qs: seq<Query>)
    requires InCache(c.items, k)
    requires forall j :: 0 <= j < |qs| ==> qs[j].key == k
    ensures Run(c, qs) == c.(hits := c.hits + |qs|)
    decreases |qs|
  {
    if |qs| > 0 {
      var next := GetAccessToken(c, qs[0].key, qs[0].flow).state;
      assert next == c.(hits := c.hits + 1);
      RepeatedCallsHit(next, k, qs[1..]);
    }
  }
}
