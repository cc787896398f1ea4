/** The provider cache and the Coinbase feed in front of it: sequence numbers, trade ids, "unchanged"
    answers that carry a placeholder price, and timestamps. */
module ProviderFeed {
  import opened Wrappers

  datatype ProviderTicker = ProviderTicker(offChain: string, json: string)

  datatype ResponseCode = CodeOK | CodeUnchanged

  datatype ResolvedResult<+V> = ResolvedResult(value: V, timestamp: int, code: ResponseCode)

  type Cache<V> = map<ProviderTicker, ResolvedResult<V>>

  // ---------------------------------------------------------------- the cache

  /** An older result is dropped; "unchanged" refreshes the timestamp only. */
  function Updated<V>(data: Cache<V>, id: ProviderTicker, result: ResolvedResult<V>): Cache<V> {
    if id !in data then data[id := result]
    else if result.timestamp < data[id].timestamp then data
    else if result.code == CodeUnchanged then data[id := data[id].(timestamp := result.timestamp)]
    else data[id := result]
  }

  class Provider<V> {
    var data: Cache<V>

    constructor ()
      ensures data == map[]
    {
      data := map[];
    }

    method UpdateData(id: ProviderTicker, result: ResolvedResult<V>)
      modifies this
      ensures data == Updated(old(data), id, result)
    {
      if id !in data {
        data := data[id := result];
        return;
      }
      var current := data[id];
      if result.timestamp < current.timestamp {
        return;
      }
      match result.code {
        case CodeUnchanged =>
          current := current.(timestamp := result.timestamp);
          data := data[id := current];
        case CodeOK =>
          data := data[id := result];
      }
    }

    /** One response of the channel: its results are independent of each other. */
    method Receive(resolved: map<ProviderTicker, ResolvedResult<V>>)
      modifies this
      ensures data == Received(old(data), resolved)
    {
      var left := resolved.Keys;
      ghost var before := data;
      while left != {}
        invariant left <= resolved.Keys
        invariant data == Received(before, map id | id in resolved && id !in left :: resolved[id])
      {
        hide Received;
        var id :| id in left;
        ghost var handled := map i | i in resolved && i !in left :: resolved[i];
        left := left - {id};
        UpdateData(id, resolved[id]);
        ReceivedOneMore(before, handled, id, resolved[id]);
        assert (map i | i in resolved && i !in left :: resolved[i]) == handled[id := resolved[id]];
      }
      assert (map id | id in resolved && id !in left :: resolved[id]) == resolved;
    }
  }

  ghost function Received<V>(data: Cache<V>, resolved: map<ProviderTicker, ResolvedResult<V>>): Cache<V> {
    map id | id in data.Keys + resolved.Keys :: if id in resolved then Updated(data, id, resolved[id])[id] else data[id]
  }

  lemma ReceivedOneMore<V>(data: Cache<V>, handled: map<ProviderTicker, ResolvedResult<V>>, id: ProviderTicker,
                           result: ResolvedResult<V>)
    requires id !in handled
    ensures Updated(Received(data, handled), id, result) == Received(data, handled[id := result])
  {
  }

  datatype Update<+V> = Update(id: ProviderTicker, result: ResolvedResult<V>)

  /** The cache after the updates, in the order they were delivered. */
  function Delivered<V>(start: Cache<V>, updates: seq<Update<V>>): Cache<V> {
    if updates == [] then start
    else
      var n := |updates| - 1;
      Updated(Delivered(start, updates[..n]), updates[n].id, updates[n].result)
  }

  /** Freshness: under any updates at all, entries stay and their timestamps never decrease. */
  lemma {:induction false} TimestampsNeverDecrease<V>(start: Cache<V>, updates: seq<Update<V>>, id: ProviderTicker)
    requires id in start
    ensures id in Delivered(start, updates) && start[id].timestamp <= Delivered(start, updates)[id].timestamp
  {
    if updates != [] {
      TimestampsNeverDecrease(start, updates[..|updates| - 1], id);
    }
  }

  // ---------------------------------------------------------------- the Coinbase handler

  datatype Message =
    | TickerMessage(ticker: string, sequence: int, tradeID: int, price: Option<real>)
    | HeartbeatMessage(ticker: string, sequence: int, lastTradeID: int)

  datatype HandlerState = HandlerState(sequence: map<ProviderTicker, int>, tradeIDs: map<ProviderTicker, int>)

  datatype FeedError = UnsupportedMarket | OutOfOrder | BadPrice

  /** Resolved and unresolved tickers of one response. */
  datatype Response = Response(resolved: map<ProviderTicker, ResolvedResult<real>>, unresolved: set<ProviderTicker>)

  const EMPTY := Response(map[], {})

  predicate InOrder(h: HandlerState, t: ProviderTicker, sequence: int) {
    t !in h.sequence || h.sequence[t] <= sequence
  }

  /** What a message makes of the handler, and what it resolves. */
  function Handled(known: map<string, ProviderTicker>, h: HandlerState, msg: Message, now: int)
    : (HandlerState, Response)
  {
    if msg.ticker !in known then (h, EMPTY)
    else
      var t := known[msg.ticker];
      if !InOrder(h, t, msg.sequence) then (h, Response(map[], {t}))
      else
        var h' := h.(sequence := h.sequence[t := msg.sequence]);
        match msg
        case TickerMessage(_, _, tradeID, price) =>
          if price.None? then (h', Response(map[], {t}))
          else (h'.(tradeIDs := h.tradeIDs[t := tradeID]),
                Response(map[t := ResolvedResult(price.value, now, CodeOK)], {}))
        case HeartbeatMessage(_, _, lastTradeID) =>
          if t !in h.tradeIDs || h.tradeIDs[t] != lastTradeID then (h', Response(map[], {t}))
          else (h', Response(map[t := ResolvedResult(0.0, now, CodeUnchanged)], {}))
  }

  /** The error a message is answered with; a heartbeat without a known trade is not one. */
  function Failure(known: map<string, ProviderTicker>, h: HandlerState, msg: Message): Option<FeedError> {
    if msg.ticker !in known then Some(UnsupportedMarket)
    else if !InOrder(h, known[msg.ticker], msg.sequence) then Some(OutOfOrder)
    else if msg.TickerMessage? && msg.price.None? then Some(BadPrice)
    else None
  }

  class WebSocketHandler {
    var sequence: map<ProviderTicker, int>
    var tradeIDs: map<ProviderTicker, int>
    const known: map<string, ProviderTicker>

    function State(): HandlerState
      reads this
    {
      HandlerState(sequence, tradeIDs)
    }

    constructor (known: map<string, ProviderTicker>)
      ensures this.known == known && State() == HandlerState(map[], map[])
    {
      this.known, sequence, tradeIDs := known, map[], map[];
    }

    method CheckSequenceNumber(ticker: ProviderTicker, observed: int) returns (r: Result<(), FeedError>)
      modifies this`sequence
      ensures r == if InOrder(old(State()), ticker, observed) then Ok(()) else Err(OutOfOrder)
      ensures sequence == if r.Ok? then old(sequence)[ticker := observed] else old(sequence)
    {
      if ticker !in sequence || sequence[ticker] <= observed {
        sequence := sequence[ticker := observed];
        return Ok(());
      }
      return Err(OutOfOrder);
    }

    method ParseTickerResponseMessage(msg: Message, now: int) returns (response: Response, err: Option<FeedError>)
      requires msg.TickerMessage?
      modifies this
      ensures (State(), response) == Handled(known, old(State()), msg, now)
      ensures err == Failure(known, old(State()), msg)
      ensures err.None? <==> response.resolved != map[]
    {
      if msg.ticker !in known {
        return EMPTY, Some(UnsupportedMarket);
      }
      var ticker := known[msg.ticker];
      var inOrder := CheckSequenceNumber(ticker, msg.sequence);
      if inOrder.Err? {
        return Response(map[], {ticker}), Some(inOrder.error);
      }
      if msg.price.None? {
        return Response(map[], {ticker}), Some(BadPrice);
      }
      tradeIDs := tradeIDs[ticker := msg.tradeID];
      response, err := Response(map[ticker := ResolvedResult(msg.price.value, now, CodeOK)], {}), None;
      assert ticker in response.resolved;
    }

    method ParseHeartbeatResponseMessage(msg: Message, now: int) returns (response: Response, err: Option<FeedError>)
      requires msg.HeartbeatMessage?
      modifies this
      ensures (State(), response) == Handled(known, old(State()), msg, now)
      ensures err == Failure(known, old(State()), msg)
    {
      if msg.ticker !in known {
        return EMPTY, Some(UnsupportedMarket);
      }
      var ticker := known[msg.ticker];
      var inOrder := CheckSequenceNumber(ticker, msg.sequence);
      if inOrder.Err? {
        return Response(map[], {ticker}), Some(inOrder.error);
      }
      if ticker !in tradeIDs || tradeIDs[ticker] != msg.lastTradeID {
        return Response(map[], {ticker}), None;
      }
      return Response(map[ticker := ResolvedResult(0.0, now, CodeUnchanged)], {}), None;
    }
  }

  // ---------------------------------------------------------------- runs of the feed

  datatype Arrival = Arrival(msg: Message, now: int)

  datatype FeedRun = FeedRun(handler: HandlerState, updates: seq<Update<real>>)

  /** One message: what it resolves goes onto the response channel. */
  ghost function Next(known: map<string, ProviderTicker>, run: FeedRun, a: Arrival): FeedRun {
    var (handler, response) := Handled(known, run.handler, a.msg, a.now);
    var t := if a.msg.ticker in known then known[a.msg.ticker] else ProviderTicker("", "");
    FeedRun(handler, if t in response.resolved then run.updates + [Update(t, response.resolved[t])] else run.updates)
  }

  /** The resolved results a message sequence puts on the response channel, in order. */
  ghost function Run(known: map<string, ProviderTicker>, feed: seq<Arrival>): FeedRun {
    if feed == [] then FeedRun(HandlerState(map[], map[]), [])
    else Next(known, Run(known, feed[..|feed| - 1]), feed[|feed| - 1])
  }

  /** The price of the latest real trade of t among the updates. */
  ghost function LastTrade<V>(updates: seq<Update<V>>, t: ProviderTicker): Option<V> {
    if updates == [] then None
    else
      var last := updates[|updates| - 1];
      if last.id == t && last.result.code == CodeOK then Some(last.result.value)
      else LastTrade(updates[..|updates| - 1], t)
  }

  ghost predicate Ordered<V>(updates: seq<Update<V>>) {
    forall i, j :: 0 <= i < j < |updates| ==> updates[i].result.timestamp <= updates[j].result.timestamp
  }

  /** No "unchanged" before the first trade of its ticker. */
  ghost predicate TradesFirst<V>(updates: seq<Update<V>>) {
    forall j :: 0 <= j < |updates| && updates[j].result.code == CodeUnchanged ==>
      LastTrade(updates[..j], updates[j].id).Some?
  }

  ghost predicate TradesRemembered(run: FeedRun) {
    forall t | t in run.handler.tradeIDs :: LastTrade(run.updates, t).Some?
  }

  /** A result is sent: a trade whose id is remembered from now on, or "unchanged" for a ticker whose
      trade id was already known. */
  ghost predicate Sends(before: FeedRun, after: FeedRun, u: Update<real>) {
    && after.updates == before.updates + [u]
    && if u.result.code == CodeOK then after.handler.tradeIDs.Keys == before.handler.tradeIDs.Keys + {u.id}
       else u.id in before.handler.tradeIDs && after.handler.tradeIDs == before.handler.tradeIDs
  }

  /** A message sends at most one result, stamped with the time of the message. */
  lemma NextSends(known: map<string, ProviderTicker>, run: FeedRun, a: Arrival)
    ensures var after := Next(known, run, a);
            || (after.updates == run.updates && after.handler.tradeIDs == run.handler.tradeIDs)
            || exists u :: Sends(run, after, u) && u.result.timestamp == a.now
  {
    if a.msg.ticker in known {
      var t := known[a.msg.ticker];
      var (handler, response) := Handled(known, run.handler, a.msg, a.now);
      if t in response.resolved {
        assert Sends(run, Next(known, run, a), Update(t, response.resolved[t]));
      }
    }
  }

  lemma AppendKeepsOrder<V>(updates: seq<Update<V>>, u: Update<V>)
    requires TradesFirst(updates) && Ordered(updates)
    requires forall i :: 0 <= i < |updates| ==> updates[i].result.timestamp <= u.result.timestamp
    requires u.result.code == CodeUnchanged ==> LastTrade(updates, u.id).Some?
    ensures TradesFirst(updates + [u]) && Ordered(updates + [u])
    ensures forall t :: LastTrade(updates + [u], t)
                     == if u.id == t && u.result.code == CodeOK then Some(u.result.value) else LastTrade(updates, t)
  {
    var longer := updates + [u];
    assert longer[..|updates|] == updates;
    forall j | 0 <= j < |longer| && longer[j].result.code == CodeUnchanged
      ensures LastTrade(longer[..j], longer[j].id).Some?
    {
      assert longer[..j] == updates[..j];
      if j == |updates| {
        assert updates[..j] == updates;
      }
    }
  }

  lemma {:induction false} FeedInvariant(known: map<string, ProviderTicker>, feed: seq<Arrival>)
    requires forall i, j :: 0 <= i < j < |feed| ==> feed[i].now <= feed[j].now
    ensures var run := Run(known, feed);
            && TradesRemembered(run) && TradesFirst(run.updates) && Ordered(run.updates)
            && forall i :: 0 <= i < |run.updates| ==>
                 feed != [] && run.updates[i].result.timestamp <= feed[|feed| - 1].now
  {
    hide Next;
    if feed != [] {
      var n := |feed| - 1;
      FeedInvariant(known, feed[..n]);
      var before, after := Run(known, feed[..n]), Run(known, feed);
      NextSends(known, before, feed[n]);
      if u :| Sends(before, after, u) && u.result.timestamp == feed[n].now {
        AppendKeepsOrder(before.updates, u);
      }
    }
  }

  /** The time of the latest update of t, a trade or not. */
  ghost function LastUpdate<V>(updates: seq<Update<V>>, t: ProviderTicker): Option<int> {
    if updates == [] then None
    else
      var last := updates[|updates| - 1];
      if last.id == t then Some(last.result.timestamp) else LastUpdate(updates[..|updates| - 1], t)
  }

  lemma {:induction false} LastUpdateBound<V>(updates: seq<Update<V>>, t: ProviderTicker, now: int)
    requires LastUpdate(updates, t).Some? && forall i :: 0 <= i < |updates| ==> updates[i].result.timestamp <= now
    ensures LastUpdate(updates, t).value <= now
  {
    if updates[|updates| - 1].id != t {
      LastUpdateBound(updates[..|updates| - 1], t, now);
    }
  }

  /** With trades first and times in order, the cache holds for every ticker the price of its last
      trade, and the time of its last update. */
  lemma {:induction false} CacheHoldsLastTrade<V>(updates: seq<Update<V>>, t: ProviderTicker)
    requires TradesFirst(updates) && Ordered(updates)
    ensures var data := Delivered(map[], updates);
            && (t in data <==> LastTrade(updates, t).Some?)
            && (t in data ==> data[t].value == LastTrade(updates, t).value && data[t].code == CodeOK)
            && (t in data <==> LastUpdate(updates, t).Some?)
            && (t in data ==> data[t].timestamp == LastUpdate(updates, t).value)
  {
    if updates != [] {
      var n := |updates| - 1;
      PrefixKeepsOrder(updates, n);
      CacheHoldsLastTrade(updates[..n], t);
      if t in Delivered(map[], updates[..n]) {
        LastUpdateBound(updates[..n], t, updates[n].result.timestamp);
      }
    }
  }

  /** Delivering update d moves the timestamp of its ticker and nothing else. */
  ghost predicate RefreshesOnly<V>(updates: seq<Update<V>>, d: nat)
    requires d < |updates|
  {
    var data, u := Delivered(map[], updates[..d]), updates[d];
    u.id in data && Delivered(map[], updates[..d + 1]) == data[u.id := data[u.id].(timestamp := u.result.timestamp)]
  }

  lemma UnchangedOnlyRefreshes<V>(updates: seq<Update<V>>, d: nat)
    requires TradesFirst(updates) && Ordered(updates)
    requires d < |updates| && updates[d].result.code == CodeUnchanged
    ensures RefreshesOnly(updates, d)
  {
    PrefixKeepsOrder(updates, d);
    var u := updates[d];
    CacheHoldsLastTrade(updates[..d], u.id);
    LastUpdateBound(updates[..d], u.id, u.result.timestamp);
    assert updates[..d + 1][..d] == updates[..d];
  }

  /** However far the channel has been drained, in order: the cached price is that of the last trade
      delivered, never the placeholder of an "unchanged" answer, and every "unchanged" answer delivered
      moves the timestamp of its ticker and nothing else. */
  lemma FeedNeverStoresPlaceholder(known: map<string, ProviderTicker>, feed: seq<Arrival>, d: nat, t: ProviderTicker)
    requires forall i, j :: 0 <= i < j < |feed| ==> feed[i].now <= feed[j].now
    requires d <= |Run(known, feed).updates|
    ensures var delivered := Run(known, feed).updates[..d];
            var data := Delivered(map[], delivered);
            && (t in data <==> LastTrade(delivered, t).Some?)
            && (t in data ==> data[t].value == LastTrade(delivered, t).value && data[t].code == CodeOK)
    ensures forall k | 0 <= k < d && Run(known, feed).updates[k].result.code == CodeUnchanged ::
              RefreshesOnly(Run(known, feed).updates, k)
  {
    hide Run, Next, Delivered, LastTrade, TradesFirst, Ordered, RefreshesOnly;
    var updates := Run(known, feed).updates;
    FeedInvariant(known, feed);
    PrefixKeepsOrder(updates, d);
    CacheHoldsLastTrade(updates[..d], t);
    forall k | 0 <= k < d && updates[k].result.code == CodeUnchanged
      ensures RefreshesOnly(updates, k)
    {
      UnchangedOnlyRefreshes(updates, k);
    }
  }

  lemma PrefixKeepsOrder<V>(updates: seq<Update<V>>, d: nat)
    requires TradesFirst(updates) && Ordered(updates) && d <= |updates|
    ensures TradesFirst(updates[..d]) && Ordered(updates[..d])
  {
    assert forall j :: 0 <= j < d ==> updates[..d][..j] == updates[..j];
  }

  // ---------------------------------------------------------------- why the order matters

  lemma {:induction false} NoTradeLeavesPlaceholder<V>(updates: seq<Update<V>>, t: ProviderTicker)
    requires LastTrade(updates, t).None?
    ensures t in Delivered(map[], updates) ==> Delivered(map[], updates)[t].code == CodeUnchanged
    ensures (exists i :: 0 <= i < |updates| && updates[i].id == t) ==> t in Delivered(map[], updates)
  {
    if updates != [] {
      var n := |updates| - 1;
      NoTradeLeavesPlaceholder(updates[..n], t);
      if i :| 0 <= i < n && updates[i].id == t {
        assert updates[..n][i].id == t;
      }
    }
  }

  /** For results with times in order, the cache is free of placeholders at every point of delivery
      exactly when every ticker's first delivered result is a trade. */
  lemma PlaceholderFreeExactly<V>(updates: seq<Update<V>>)
    requires Ordered(updates)
    ensures TradesFirst(updates) <==>
            forall d, t | 0 <= d <= |updates| && t in Delivered(map[], updates[..d]) ::
              Delivered(map[], updates[..d])[t].code == CodeOK
  {
    if TradesFirst(updates) {
      forall d, t | 0 <= d <= |updates| && t in Delivered(map[], updates[..d])
        ensures Delivered(map[], updates[..d])[t].code == CodeOK
      {
        PrefixKeepsOrder(updates, d);
        CacheHoldsLastTrade(updates[..d], t);
      }
    } else {
      var j :| 0 <= j < |updates| && updates[j].result.code == CodeUnchanged
        && LastTrade(updates[..j], updates[j].id).None?;
      var prefix := updates[..j + 1];
      assert prefix[..j] == updates[..j] && prefix[j] == updates[j];
      assert LastTrade(prefix, updates[j].id).None?;
      NoTradeLeavesPlaceholder(prefix, updates[j].id);
      assert updates[j].id in Delivered(map[], updates[..j + 1]);
    }
  }
}
