/** The Coinbase feed in terms of its messages alone: which are in sequence, which is the latest trade of a
    ticker, and what is therefore sent to the cache and stays there. */
module FeedLaws {
  import opened Wrappers
  import opened ProviderFeed

  type Known = map<string, ProviderTicker>

  function Subject(known: Known, msg: Message): Option<ProviderTicker> {
    if msg.ticker in known then Some(known[msg.ticker]) else None
  }

  /** No earlier message about the same ticker, of either kind, had a greater sequence number. */
  ghost predicate InSequence(known: Known, feed: seq<Arrival>, i: nat)
    requires i < |feed|
  {
    forall j :: 0 <= j < i && Subject(known, feed[j].msg) == Subject(known, feed[i].msg) ==>
      feed[j].msg.sequence <= feed[i].msg.sequence
  }

  ghost predicate IsTrade(known: Known, feed: seq<Arrival>, i: nat, t: ProviderTicker)
    requires i < |feed|
  {
    Subject(known, feed[i].msg) == Some(t) && feed[i].msg.TickerMessage? && feed[i].msg.price.Some?
      && InSequence(known, feed, i)
  }

  /** The index of the ticker's latest accepted trade among the first n messages. */
  ghost function LatestTrade(known: Known, feed: seq<Arrival>, n: nat, t: ProviderTicker): (r: Option<nat>)
    requires n <= |feed|
    ensures r.Some? ==> r.value < n && IsTrade(known, feed, r.value, t)
  {
    if n == 0 then None
    else if IsTrade(known, feed, n - 1, t) then Some(n - 1)
    else LatestTrade(known, feed, n - 1, t)
  }

  /** What message n sends: its price, if it is an accepted trade; "unchanged", if it is a heartbeat in
      sequence that names the trade id of the ticker's latest accepted trade; nothing otherwise. */
  ghost function Sent(known: Known, feed: seq<Arrival>, n: nat): seq<Update<real>>
    requires n < |feed|
  {
    var a := feed[n];
    if Subject(known, a.msg).None? || !InSequence(known, feed, n) then []
    else
      var t := Subject(known, a.msg).value;
      match a.msg
      case TickerMessage(_, _, _, price) =>
        if price.Some? then [Update(t, ResolvedResult(price.value, a.now, CodeOK))] else []
      case HeartbeatMessage(_, _, lastTradeID) =>
        var latest := LatestTrade(known, feed, n, t);
        if latest.Some? && feed[latest.value].msg.tradeID == lastTradeID
          then [Update(t, ResolvedResult(0.0, a.now, CodeUnchanged))]
        else []
  }

  ghost function AllSent(known: Known, feed: seq<Arrival>, n: nat): seq<Update<real>>
    requires n <= |feed|
  {
    if n == 0 then [] else AllSent(known, feed, n - 1) + Sent(known, feed, n - 1)
  }

  /** A message about a known ticker either resolves exactly it or leaves exactly it unresolved; one about an
      unknown ticker does neither and changes nothing. Only a heartbeat can be left unresolved without an
      error. */
  lemma ResponseIsAboutSubject(known: Known, h: HandlerState, msg: Message, now: int)
    ensures var (after, response) := Handled(known, h, msg, now);
            match Subject(known, msg)
            case None => response.resolved == map[] && response.unresolved == {} && after == h
            case Some(t) =>
              && response.resolved.Keys !! response.unresolved && response.resolved.Keys + response.unresolved == {t}
              && (Failure(known, h, msg) == None ==> response.resolved != map[] || msg.HeartbeatMessage?)
    ensures Failure(known, h, msg) != None ==> Handled(known, h, msg, now).1.resolved == map[]
    ensures Subject(known, msg) == None ==> Failure(known, h, msg) == Some(UnsupportedMarket)
  {
    var (after, response) := Handled(known, h, msg, now);
    if msg.ticker in known {
      var t := known[msg.ticker];
      assert t in response.resolved || t in response.unresolved;
    }
  }

  // ---------------------------------------------------------------- what the handler remembers

  /** The recorded sequence number is the greatest seen for the ticker. */
  ghost predicate SequenceIsGreatest(known: Known, feed: seq<Arrival>, n: nat, h: HandlerState, t: ProviderTicker)
    requires n <= |feed|
  {
    && (t in h.sequence <==> exists i :: 0 <= i < n && Subject(known, feed[i].msg) == Some(t))
    && (t in h.sequence ==>
          && (forall i :: 0 <= i < n && Subject(known, feed[i].msg) == Some(t) ==>
                feed[i].msg.sequence <= h.sequence[t])
          && exists i :: 0 <= i < n && Subject(known, feed[i].msg) == Some(t) && feed[i].msg.sequence == h.sequence[t])
  }

  /** The recorded trade id is that of the latest accepted trade. */
  ghost predicate TradeIsLatest(known: Known, feed: seq<Arrival>, n: nat, h: HandlerState, t: ProviderTicker)
    requires n <= |feed|
  {
    var latest := LatestTrade(known, feed, n, t);
    if latest.None? then t !in h.tradeIDs
    else t in h.tradeIDs && h.tradeIDs[t] == feed[latest.value].msg.tradeID
  }

  ghost predicate Remembers(known: Known, feed: seq<Arrival>, n: nat, h: HandlerState)
    requires n <= |feed|
  {
    forall t :: RemembersTicker(known, feed, n, h, t)
  }

  ghost predicate RemembersTicker(known: Known, feed: seq<Arrival>, n: nat, h: HandlerState, t: ProviderTicker)
    requires n <= |feed|
  {
    SequenceIsGreatest(known, feed, n, h, t) && TradeIsLatest(known, feed, n, h, t)
  }

  lemma InOrderIsInSequence(known: Known, feed: seq<Arrival>, n: nat, h: HandlerState, t: ProviderTicker)
    requires n < |feed| && SequenceIsGreatest(known, feed, n, h, t) && Subject(known, feed[n].msg) == Some(t)
    ensures InOrder(h, t, feed[n].msg.sequence) <==> InSequence(known, feed, n)
  {
  }

  /** One message against the handler that remembers the earlier ones. */
  lemma NextIsSent(known: Known, feed: seq<Arrival>, n: nat, run: FeedRun)
    requires n < |feed| && Remembers(known, feed, n, run.handler)
    ensures Next(known, run, feed[n]).updates == run.updates + Sent(known, feed, n)
    ensures Remembers(known, feed, n + 1, Next(known, run, feed[n]).handler)
  {
    var h, after, subject := run.handler, Next(known, run, feed[n]).handler, Subject(known, feed[n].msg);
    if subject.Some? {
      assert RemembersTicker(known, feed, n, h, subject.value);
      InOrderIsInSequence(known, feed, n, h, subject.value);
    }
    NextSendsExactly(known, feed, n, run);
    var m := n + 1;
    forall t
      ensures RemembersTicker(known, feed, m, after, t)
    {
      assert RemembersTicker(known, feed, n, h, t);
      NextRemembers(known, feed, n, run, t);
    }
  }

  lemma NextSendsExactly(known: Known, feed: seq<Arrival>, n: nat, run: FeedRun)
    requires n < |feed|
    requires var subject := Subject(known, feed[n].msg);
             subject.Some? ==>
               && SequenceIsGreatest(known, feed, n, run.handler, subject.value)
               && TradeIsLatest(known, feed, n, run.handler, subject.value)
    ensures Next(known, run, feed[n]).updates == run.updates + Sent(known, feed, n)
  {
    hide LatestTrade, SequenceIsGreatest;
    var subject := Subject(known, feed[n].msg);
    if subject.Some? {
      InOrderIsInSequence(known, feed, n, run.handler, subject.value);
    }
  }

  lemma NextRemembers(known: Known, feed: seq<Arrival>, n: nat, run: FeedRun, t: ProviderTicker)
    requires n < |feed|
    requires SequenceIsGreatest(known, feed, n, run.handler, t) && TradeIsLatest(known, feed, n, run.handler, t)
    ensures var after := Next(known, run, feed[n]).handler;
            SequenceIsGreatest(known, feed, n + 1, after, t) && TradeIsLatest(known, feed, n + 1, after, t)
  {
    var h, after, subject := run.handler, Next(known, run, feed[n]).handler, Subject(known, feed[n].msg);
    if subject == Some(t) {
      InOrderIsInSequence(known, feed, n, h, t);
      SubjectSequence(known, feed, n, h, after, t);
    } else {
      assert t in after.sequence <==> t in h.sequence;
      OtherSequence(known, feed, n, h, after, t);
    }
  }

  lemma SubjectSequence(known: Known, feed: seq<Arrival>, n: nat, h: HandlerState, after: HandlerState,
                        t: ProviderTicker)
    requires n < |feed| && SequenceIsGreatest(known, feed, n, h, t) && Subject(known, feed[n].msg) == Some(t)
    requires after.sequence == if InOrder(h, t, feed[n].msg.sequence) then h.sequence[t := feed[n].msg.sequence]
             else h.sequence
    ensures SequenceIsGreatest(known, feed, n + 1, after, t)
  {
  }

  lemma OtherSequence(known: Known, feed: seq<Arrival>, n: nat, h: HandlerState, after: HandlerState, t: ProviderTicker)
    requires n < |feed| && SequenceIsGreatest(known, feed, n, h, t) && Subject(known, feed[n].msg) != Some(t)
    requires (t in after.sequence <==> t in h.sequence) && (t in h.sequence ==> after.sequence[t] == h.sequence[t])
    ensures SequenceIsGreatest(known, feed, n + 1, after, t)
  {
  }

  /** Over every run: the updates sent are exactly those the messages alone call for. */
  lemma {:induction false} SentExactly(known: Known, feed: seq<Arrival>, n: nat)
    requires n <= |feed|
    ensures Run(known, feed[..n]).updates == AllSent(known, feed, n)
    ensures Remembers(known, feed, n, Run(known, feed[..n]).handler)
  {
    hide Next, Sent, Remembers;
    if n == 0 {
      NothingRemembered(known, feed);
    } else {
      SentExactly(known, feed, n - 1);
      assert feed[..n][..n - 1] == feed[..n - 1];
      NextIsSent(known, feed, n - 1, Run(known, feed[..n - 1]));
    }
  }

  lemma NothingRemembered(known: Known, feed: seq<Arrival>)
    ensures Remembers(known, feed, 0, HandlerState(map[], map[]))
  {
  }

  /** A heartbeat is answered with "unchanged" exactly when it is in sequence and names the trade id of the
      latest accepted trade of its ticker. */
  lemma UnchangedExactly(known: Known, feed: seq<Arrival>, n: nat)
    requires n < |feed| && feed[n].msg.HeartbeatMessage?
    ensures var before, after := Run(known, feed[..n]).updates, Run(known, feed[..n + 1]).updates;
            var t := Subject(known, feed[n].msg);
            && before <= after
            && (after != before <==>
                  && t.Some? && InSequence(known, feed, n)
                  && var latest := LatestTrade(known, feed, n, t.value);
                     latest.Some? && feed[latest.value].msg.tradeID == feed[n].msg.lastTradeID)
            && (after != before ==>
                  after == before + [Update(t.value, ResolvedResult(0.0, feed[n].now, CodeUnchanged))])
  {
    hide Run, InSequence, LatestTrade, Remembers;
    SentExactly(known, feed, n);
    SentExactly(known, feed, n + 1);
    assert |Sent(known, feed, n)| <= 1;
  }

  // ---------------------------------------------------------------- what stays in the cache

  lemma LastTradeOfConcat(updates: seq<Update<real>>, more: seq<Update<real>>, t: ProviderTicker)
    requires |more| <= 1
    ensures LastTrade(updates + more, t)
         == if more != [] && more[0].id == t && more[0].result.code == CodeOK then Some(more[0].result.value)
            else LastTrade(updates, t)
  {
    if more == [] {
      assert updates + more == updates;
    } else {
      assert (updates + more)[..|updates|] == updates;
    }
  }

  lemma {:induction false} LastTradeIsLatest(known: Known, feed: seq<Arrival>, n: nat, t: ProviderTicker)
    requires n <= |feed|
    ensures var latest := LatestTrade(known, feed, n, t);
            LastTrade(AllSent(known, feed, n), t) == if latest.Some? then Some(feed[latest.value].msg.price.value)
              else None
  {
    hide InSequence, LastTrade;
    if n > 0 {
      LastTradeIsLatest(known, feed, n - 1, t);
      LastTradeOfConcat(AllSent(known, feed, n - 1), Sent(known, feed, n - 1), t);
    } else {
      NoLastTrade(t);
    }
  }

  lemma NoLastTrade(t: ProviderTicker)
    ensures LastTrade<real>([], t) == None
  {
  }

  /** The whole way from messages to the cache: once everything sent has been delivered, the cache holds for
      each ticker the price of its latest accepted trade, and nothing for a ticker without one. */
  lemma CacheHoldsLatestTrade(known: Known, feed: seq<Arrival>, t: ProviderTicker)
    requires forall i, j :: 0 <= i < j < |feed| ==> feed[i].now <= feed[j].now
    ensures var latest, data := LatestTrade(known, feed, |feed|, t), Delivered(map[], Run(known, feed).updates);
            && (t in data <==> latest.Some?)
            && (t in data ==> data[t].value == feed[latest.value].msg.price.value)
  {
    hide Run, Delivered, LastTrade, LatestTrade, TradesFirst, Ordered, AllSent, Remembers;
    var updates := Run(known, feed).updates;
    assert feed[..|feed|] == feed;
    SentExactly(known, feed, |feed|);
    LastTradeIsLatest(known, feed, |feed|, t);
    FeedNeverStoresPlaceholder(known, feed, |updates|, t);
    assert updates[..|updates|] == updates;
  }
}
