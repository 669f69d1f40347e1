/** The refresh-token cache the repository marks as broken: entries are keyed
    on (user, scope) only and hold a refresh token, which every hit exchanges
    for a new access token and a rotated refresh token. */
module BrokenAccessTokenCache {
  import opened Wrappers
  import opened Tokens
  import Seqs

  /** The stored refresh token has a nullable type in the entry. */
  datatype Item = Item(userId: string, scope: string, refreshToken: Option<string>)

  datatype Cache = Cache(items: seq<Item>, hits: nat, misses: nat)

  const Empty: Cache := Cache([], 0, 0)

  /** The lookup predicate: the selected accounts play no part. */
  predicate Matches(item: Item, k: Key)
  {
    item.userId == k.userId && item.scope == k.scope
  }

  predicate InCache(items: seq<Item>, k: Key)
  {
    exists i :: 0 <= i < |items| && Matches(items[i], k)
  }

  /** No two entries share a (user, scope) pair. */
  predicate UniqueKeys(items: seq<Item>)
  {
    forall i, j :: 0 <= i < j < |items| ==>
      items[i].userId != items[j].userId || items[i].scope != items[j].scope
  }

  /** Every stored refresh token is non-null. */
  predicate RefreshTokensPresent(items: seq<Item>)
  {
    forall i :: 0 <= i < |items| ==> items[i].refreshToken.Some?
  }

  function Find(items: seq<Item>, k: Key): Option<nat>
  {
    Seqs.FirstIndex(items, (it: Item) => Matches(it, k))
  }

  /** `GetAccessToken(userId, selectedAccounts, scope)`: `flow` is what the
      authorise/consent flow would return on a miss, `exchange` what the
      refresh-token exchange would return on a hit. */
  function GetAccessToken(c: Cache, k: Key, flow: TokenResponse, exchange: TokenResponse)
    : (o: Outcome<Cache, string>)
    ensures o.state.hits + o.state.misses == c.hits + c.misses + 1
    ensures o.state.hits >= c.hits && o.state.misses >= c.misses
    ensures |o.state.items| >= |c.items|
    // hit: the first matching entry's refresh token is exchanged
    ensures InCache(c.items, k) ==>
      && o.state.hits == c.hits + 1
      && o.state.misses == c.misses
      && |o.state.items| == |c.items|
      && exists i :: 0 <= i < |c.items| && Matches(c.items[i], k)
           && (forall j :: 0 <= j < i ==> !Matches(c.items[j], k))
           && (c.items[i].refreshToken.None? ==>
                 o.call.None? && o.state.items == c.items && o.result == Err(StoredRefreshTokenNull))
           && (c.items[i].refreshToken.Some? ==>
                 o.call == Some(RefreshWith(c.items[i].refreshToken.value, k.scope)))
           && (c.items[i].refreshToken.Some? && Complete(exchange) ==>
                 && o.state.items == c.items[i := c.items[i].(refreshToken := exchange.refreshToken)]
                 && o.result == Ok(exchange.accessToken.value))
           && (!Complete(exchange) ==> o.state.items == c.items && o.result.Err?)
    // miss: the flow runs with the full key, and only (user, scope) is stored
    ensures !InCache(c.items, k) ==>
      && o.state.hits == c.hits
      && o.state.misses == c.misses + 1
      && o.call == Some(Authorise(k))
    ensures !InCache(c.items, k) && Complete(flow) ==>
      && o.state.items == c.items + [Item(k.userId, k.scope, flow.refreshToken)]
      && o.result == Ok(flow.accessToken.value)
    ensures !InCache(c.items, k) && !Complete(flow) ==>
      && o.state.items == c.items
      && o.result == Err(if flow.accessToken.None? then AccessTokenNull(AuthConsentFlow)
                         else RefreshTokenNull(AuthConsentFlow))
    ensures UniqueKeys(c.items) ==> UniqueKeys(o.state.items)
    ensures RefreshTokensPresent(c.items) ==> RefreshTokensPresent(o.state.items)
  {
    match Find(c.items, k)
    case Some(i) =>
      var counted := c.(hits := c.hits + 1);
      var item := c.items[i];
      (match item.refreshToken
       case None => Outcome(counted, None, Err(StoredRefreshTokenNull))
       case Some(stored) =>
         var call := Some(RefreshWith(stored, k.scope));
         match CheckResponse(RefreshExchange, exchange)
         case Err(e) => Outcome(counted, call, Err(e))
         case Ok(pair) =>
           Outcome(counted.(items := c.items[i := item.(refreshToken := Some(pair.refreshToken))]),
                   call, Ok(pair.accessToken)))
    case None =>
      var counted := c.(misses := c.misses + 1);
      match CheckResponse(AuthConsentFlow, flow)
      case Err(e) => Outcome(counted, Some(Authorise(k)), Err(e))
      case Ok(pair) =>
        Outcome(counted.(items := c.items + [Item(k.userId, k.scope, Some(pair.refreshToken))]),
                Some(Authorise(k)), Ok(pair.accessToken))
  }

  /** One call and the responses its collaborators would give. */
  datatype Query = Query(key: Key, flow: TokenResponse, exchange: TokenResponse)

  /** The cache after a sequence of calls made one after another. */
  function Run(c: Cache, qs: seq<Query>): (r: Cache)
    ensures r.hits + r.misses == c.hits + c.misses + |qs|
    ensures r.hits >= c.hits && r.misses >= c.misses
    ensures |r.items| - |c.items| <= r.misses - c.misses
    ensures UniqueKeys(c.items) ==> UniqueKeys(r.items)
    ensures RefreshTokensPresent(c.items) ==> RefreshTokensPresent(r.items)
    decreases |qs|
  {
    if |qs| == 0 then c
    else Run(GetAccessToken(c, qs[0].key, qs[0].flow, qs[0].exchange).state, qs[1..])
  }

  /** In any run from a fresh cache the stored-token null check never fires:
      a call fails with `StoredRefreshTokenNull` on no cache `Run` can reach. */
  lemma StoredTokenCheckNeverFires(qs: seq<Query>, k: Key, flow: TokenResponse, exchange: TokenResponse)
    ensures GetAccessToken(Run(Empty, qs), k, flow, exchange).result != Err(StoredRefreshTokenNull)
  {
  }

  /** Two calls that differ only in the selected accounts lead to the same
      cache and the same answer. */
  lemma SelectedAccountsIgnored(c: Cache, k1: Key, k2: Key, flow: TokenResponse, exchange: TokenResponse)
    requires k1.userId == k2.userId && k1.scope == k2.scope
    ensures GetAccessToken(c, k1, flow, exchange).state == GetAccessToken(c, k2, flow, exchange).state
    ensures GetAccessToken(c, k1, flow, exchange).result == GetAccessToken(c, k2, flow, exchange).result
  {
  }

  /** After a successful call for one account selection, a call for a different
      selection of the same user and scope is a hit: it exchanges the refresh
      token issued for the first selection instead of running the flow. */
  lemma OtherSelectionReusesEntry(c: Cache, k1: Key, k2: Key, flow1: TokenResponse, exchange1: TokenResponse,
                                  flow2: TokenResponse, exchange2: TokenResponse)
    requires k1.userId == k2.userId && k1.scope == k2.scope
    requires !InCache(c.items, k1)
    requires GetAccessToken(c, k1, flow1, exchange1).result.Ok?
    ensures var first := GetAccessToken(c, k1, flow1, exchange1);
            var second := GetAccessToken(first.state, k2, flow2, exchange2);
            && second.state.hits == first.state.hits + 1
            && second.call == Some(RefreshWith(flow1.refreshToken.value, k1.scope))
  {
    var first := GetAccessToken(c, k1, flow1, exchange1);
    var items := first.state.items;
    assert Matches(items[|items| - 1], k2);
    assert forall j :: 0 <= j < |c.items| ==> items[j] == c.items[j] && !Matches(items[j], k2);
  }

  /** After a run of successful hits on one entry, the stored refresh token is
      the one returned by the last exchange, not any earlier one. */
  lemma {:induction false} LastRotationWins(c: Cache, i: nat, qs: seq<Query>)
    requires i < |c.items| && c.items[i].refreshToken.Some?
    requires |qs| > 0
    requires forall j :: 0 <= j < |qs| ==> Matches(c.items[i], qs[j].key)
    requires forall j :: 0 <= j < |qs| ==> Complete(qs[j].exchange)
    requires forall j :: 0 <= j < i ==> forall q :: 0 <= q < |qs| ==> !Matches(c.items[j], qs[q].key)
    ensures Run(c, qs).items == c.items[i := c.items[i].(refreshToken := qs[|qs| - 1].exchange.refreshToken)]
    ensures Run(c, qs).hits == c.hits + |qs|
    decreases |qs|
  {
    var next := GetAccessToken(c, qs[0].key, qs[0].flow, qs[0].exchange).state;
    assert InCache(c.items, qs[0].key);
    assert next.items == c.items[i := c.items[i].(refreshToken := qs[0].exchange.refreshToken)];
    if |qs| > 1 {
      LastRotationWins(next, i, qs[1..]);
      assert qs[1..][|qs[1..]| - 1] == qs[|qs| - 1];
    }
  }
}
