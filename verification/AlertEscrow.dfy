/** Bond conservation: the escrow holds one bond per open alert, each bond leaves it once, and pruning
    leaves exactly the alerts that are not due. */
module AlertEscrow {
  import opened Wrappers
  import opened Varint
  import opened StakeMedian
  import opened Alerts

  /** The alerts whose bond is still held. */
  ghost function Open(alerts: Table): set<AlertKey> {
    set k | k in alerts && alerts[k].status.conclusion == UNCONCLUDED
  }

  lemma OpenIsStored(alerts: Table)
    ensures Open(alerts) <= alerts.Keys
  {
  }

  /** Stored alerts passed validation, and their status is one of the two defined ones. */
  ghost predicate Stored(c: Chain, alerts: Table) {
    && Keyed(alerts)
    && forall k | k in alerts :: ValidAlert(c, alerts[k].alert) && alerts[k].status.conclusion <= CONCLUDED
  }

  function Bonds(c: Chain, n: nat): nat {
    c.params.bond * n
  }

  lemma BondsAdd(c: Chain, m: nat, n: nat)
    ensures Bonds(c, m) + Bonds(c, n) == Bonds(c, m + n)
    ensures Bonds(c, 1) == c.params.bond
  {
  }

  lemma Disjoint<T>(a: set<T>, b: set<T>, whole: set<T>)
    requires a !! b && whole == a + b
    ensures |whole| == |a| + |b|
  {
  }

  lemma DifferencesChain<T>(a: set<T>, b: set<T>, c: set<T>)
    requires c - b == {} && b - a == {}
    ensures c <= b <= a && a - c == (a - b) + (b - c)
  {
    assert forall x | x in c && x !in b :: x in c - b;
    assert forall x | x in b && x !in a :: x in b - a;
  }

  ghost predicate Sound(c: Chain, s: State) {
    Stored(c, s.alerts) && s.bank.escrow == Bonds(c, |Open(s.alerts)|)
  }

  /** The alerts among `keys` whose signer is `a`. */
  ghost function OwnedBy(c: Chain, alerts: Table, keys: set<AlertKey>, a: Address): set<AlertKey> {
    set k | k in keys && k in alerts && c.decode(alerts[k].alert.signer) == Some(a)
  }

  /** From s to s', the bonds of `refunded` went to their signers and those of `slashed` were burned,
      and nothing else moved. */
  ghost predicate Paid(c: Chain, s: State, s': State, refunded: set<AlertKey>, slashed: set<AlertKey>) {
    && refunded !! slashed
    && refunded + slashed == Open(s.alerts) - Open(s'.alerts)
    && Open(s'.alerts) <= Open(s.alerts)
    && s.bank.escrow == s'.bank.escrow + Bonds(c, |refunded|) + Bonds(c, |slashed|)
    && s'.bank.burned == s.bank.burned + Bonds(c, |slashed|)
    && forall a :: s'.bank.Balance(a) == s.bank.Balance(a) + Bonds(c, |OwnedBy(c, s.alerts, refunded, a)|)
  }

  lemma PaidKeepsBacking(c: Chain, s: State, s': State, refunded: set<AlertKey>, slashed: set<AlertKey>)
    requires Sound(c, s) && Paid(c, s, s', refunded, slashed) && Stored(c, s'.alerts)
    ensures Sound(c, s')
  {
    hide Bonds, Open, Stored, OwnedBy;
    Disjoint(refunded, slashed, refunded + slashed);
    Disjoint(Open(s'.alerts), refunded + slashed, Open(s.alerts));
    BondsAdd(c, |refunded|, |slashed|);
    BondsAdd(c, |Open(s'.alerts)|, |refunded + slashed|);
  }

  // ---------------------------------------------------------------- filing

  /** A filed alert moves one bond from its signer into escrow. */
  lemma FilingBacksTheAlert(c: Chain, s: State, a: Alert, height: uint64, timestamp: uint64, hasPair: bool)
    requires Stored(c, s.alerts)
    ensures var r := Submitted(c, s, a, height, timestamp, hasPair);
            r.Ok? ==>
              && Stored(c, r.value.alerts) && (Sound(c, s) ==> Sound(c, r.value))
              && r.value.bank.escrow == s.bank.escrow + c.params.bond
              && KeyOf(a) !in s.alerts && KeyOf(a) in r.value.alerts && r.value.alerts[KeyOf(a)].alert == a
              && Open(r.value.alerts) == Open(s.alerts) + {KeyOf(a)}
              && r.value.bank.burned == s.bank.burned
              && forall b :: r.value.bank.Balance(b)
                          == s.bank.Balance(b) - if c.decode(a.signer) == Some(b) then c.params.bond else 0
  {
    hide Open, Stored, Bonds;
    var r := Submitted(c, s, a, height, timestamp, hasPair);
    if r.Ok? {
      OpeningOne(c, s.alerts, r.value.alerts[KeyOf(a)]);
      BondsAdd(c, |Open(s.alerts)|, 1);
    }
  }

  /** Adding one open alert to the table. */
  lemma OpeningOne(c: Chain, alerts: Table, a: AlertWithStatus)
    requires Stored(c, alerts) && ValidAlert(c, a.alert) && KeyOf(a.alert) !in alerts
             && a.status.conclusion == UNCONCLUDED
    ensures var after := alerts[KeyOf(a.alert) := a];
            Stored(c, after) && Open(after) == Open(alerts) + {KeyOf(a.alert)} && |Open(after)| == |Open(alerts)| + 1
  {
    var after := alerts[KeyOf(a.alert) := a];
    assert Open(after) == Open(alerts) + {KeyOf(a.alert)};
    Disjoint(Open(alerts), {KeyOf(a.alert)}, Open(after));
  }

  // ---------------------------------------------------------------- concluding

  /** The bond of an open alert is in a backed escrow. */
  lemma BondIsHeld(c: Chain, s: State, k: AlertKey)
    requires Sound(c, s) && k in Open(s.alerts)
    ensures c.params.bond <= s.bank.escrow
  {
    BondsAdd(c, 1, |Open(s.alerts) - {k}|);
    assert Open(s.alerts) == {k} + (Open(s.alerts) - {k});
  }

  ghost predicate Concludable(c: Chain, s: State, a: Alert, verdict: uint64)
    requires Stored(c, s.alerts)
  {
    && ValidAlert(c, a) && KeyOf(a) in Open(s.alerts)
    && (verdict == NEGATIVE || (verdict == POSITIVE && c.decode(s.alerts[KeyOf(a)].alert.signer).value !in c.blocked))
  }

  /** Exactly which conclusions succeed, whatever the escrow holds. In a backed escrow the bond is always
      there, so only the named alert, the verdict and a signer the bank will not pay stand in the way. */
  lemma ConclusionSucceeds(c: Chain, s: State, a: Alert, verdict: uint64)
    requires Stored(c, s.alerts)
    ensures Concluded(c, s, a, verdict).Ok? <==> Concludable(c, s, a, verdict) && c.params.bond <= s.bank.escrow
    ensures Sound(c, s) ==> (Concluded(c, s, a, verdict).Ok? <==> Concludable(c, s, a, verdict))
  {
    if Sound(c, s) && KeyOf(a) in Open(s.alerts) {
      BondIsHeld(c, s, KeyOf(a));
    }
  }

  lemma OwnersOfFew(c: Chain, alerts: Table, k: AlertKey, a: Address)
    requires k in alerts
    ensures |OwnedBy(c, alerts, {k}, a)| == if c.decode(alerts[k].alert.signer) == Some(a) then 1 else 0
    ensures |OwnedBy(c, alerts, {}, a)| == 0
  {
    assert OwnedBy(c, alerts, {k}, a) == if c.decode(alerts[k].alert.signer) == Some(a) then {k} else {};
    assert OwnedBy(c, alerts, {}, a) == {};
  }

  /** Closing one alert in the table. */
  lemma ClosingOne(c: Chain, alerts: Table, k: AlertKey)
    requires Stored(c, alerts) && k in Open(alerts)
    ensures var after := alerts[k := Closed(c, alerts[k])];
            Stored(c, after) && Open(after) == Open(alerts) - {k} && Open(alerts) - Open(after) == {k}
  {
    var after := alerts[k := Closed(c, alerts[k])];
    assert Open(after) == Open(alerts) - {k};
    assert Open(alerts) - Open(after) == {k};
  }

  lemma ConclusionPays(c: Chain, s: State, a: Alert, verdict: uint64)
    requires Stored(c, s.alerts) && Concluded(c, s, a, verdict).Ok?
    ensures var s', k := Concluded(c, s, a, verdict).value, KeyOf(a);
            && k in s.alerts && s'.alerts == s.alerts[k := Closed(c, s.alerts[k])]
            && Stored(c, s'.alerts)
            && Open(s'.alerts) == Open(s.alerts) - {k}
            && Paid(c, s, s', if verdict == POSITIVE then {k} else {}, if verdict == POSITIVE then {} else {k})
  {
    var s', k := Concluded(c, s, a, verdict).value, KeyOf(a);
    assert k in Open(s.alerts);
    hide Bonds, OwnedBy, Open, Closed;
    ClosingOne(c, s.alerts, k);
    BondsAdd(c, 0, 1);
    forall b
      ensures s'.bank.Balance(b)
              == s.bank.Balance(b) + Bonds(c, |OwnedBy(c, s.alerts, if verdict == POSITIVE then {k} else {}, b)|)
    {
      OwnersOfFew(c, s.alerts, k, b);
    }
  }

  /** A conclusion closes the alert, moves its one bond, and cannot be repeated with any verdict. */
  lemma ConclusionIsFinal(c: Chain, s: State, a: Alert, verdict: uint64, again: uint64)
    requires Sound(c, s) && Concluded(c, s, a, verdict).Ok?
    ensures var s' := Concluded(c, s, a, verdict).value;
            Sound(c, s') && Concluded(c, s', a, again) == Err(AlreadyConcluded)
  {
    var s', k := Concluded(c, s, a, verdict).value, KeyOf(a);
    ConclusionPays(c, s, a, verdict);
    PaidKeepsBacking(c, s, s', if verdict == POSITIVE then {k} else {}, if verdict == POSITIVE then {} else {k});
  }

  // ---------------------------------------------------------------- pruning

  ghost predicate Due(a: AlertWithStatus, height: uint64) {
    a.status.purgeHeight <= height
  }

  /** What is still to be visited is in the table as it was when the loop took its snapshot. */
  ghost predicate Ahead(rest: seq<AlertWithStatus>, alerts: Table) {
    && (forall i :: 0 <= i < |rest| ==> KeyOf(rest[i].alert) in alerts && alerts[KeyOf(rest[i].alert)] == rest[i])
    && forall i, j :: 0 <= i < j < |rest| ==> KeyOf(rest[i].alert) != KeyOf(rest[j].alert)
  }

  /** The due alerts of a list, and those of them whose bond has to be refunded. */
  ghost function DueKeys(rest: seq<AlertWithStatus>, height: uint64): set<AlertKey> {
    set i | 0 <= i < |rest| && Due(rest[i], height) :: KeyOf(rest[i].alert)
  }

  ghost predicate NeedsRefund(a: AlertWithStatus, height: uint64) {
    Due(a, height) && a.status.conclusion != CONCLUDED
  }

  ghost function Refundable(rest: seq<AlertWithStatus>, height: uint64): set<AlertKey> {
    set i | 0 <= i < |rest| && NeedsRefund(rest[i], height) :: KeyOf(rest[i].alert)
  }

  ghost predicate CanPay(c: Chain, a: AlertWithStatus) {
    a.status.conclusion == CONCLUDED || (c.decode(a.alert.signer).Some? && c.decode(a.alert.signer).value !in c.blocked)
  }

  /** No due open alert belongs to a signer the bank will not pay. */
  ghost predicate Payable(c: Chain, rest: seq<AlertWithStatus>, height: uint64) {
    forall i :: 0 <= i < |rest| && Due(rest[i], height) ==> CanPay(c, rest[i])
  }

  lemma AheadAfter(rest: seq<AlertWithStatus>, alerts: Table, height: uint64)
    requires Ahead(rest, alerts) && rest != []
    ensures var k := KeyOf(rest[0].alert);
            && k in alerts && alerts[k] == rest[0]
            && Ahead(rest[1..], alerts) && Ahead(rest[1..], alerts - {k})
            && k !in DueKeys(rest[1..], height)
            && DueKeys(rest, height) == DueKeys(rest[1..], height) + if Due(rest[0], height) then {k} else {}
  {
    var k := KeyOf(rest[0].alert);
    forall i | 0 <= i < |rest[1..]|
      ensures rest[1..][i] == rest[i + 1] && KeyOf(rest[1..][i].alert) != k
    {
    }
    forall d
      ensures d in DueKeys(rest, height) <==> d in DueKeys(rest[1..], height) || (d == k && Due(rest[0], height))
    {
      if i :| 0 <= i < |rest| && Due(rest[i], height) && KeyOf(rest[i].alert) == d {
        if i > 0 {
          assert rest[1..][i - 1] == rest[i];
        }
      }
      if i :| 0 <= i < |rest[1..]| && Due(rest[1..][i], height) && KeyOf(rest[1..][i].alert) == d {
        assert rest[i + 1] == rest[1..][i];
      }
    }
  }

  lemma RefundableAfter(rest: seq<AlertWithStatus>, alerts: Table, height: uint64)
    requires Ahead(rest, alerts) && rest != []
    ensures |Refundable(rest, height)|
         == |Refundable(rest[1..], height)| + if NeedsRefund(rest[0], height) then 1 else 0
  {
    var k, first := KeyOf(rest[0].alert), if NeedsRefund(rest[0], height) then {KeyOf(rest[0].alert)} else {};
    forall i | 0 <= i < |rest[1..]|
      ensures rest[1..][i] == rest[i + 1] && KeyOf(rest[1..][i].alert) != k
    {
    }
    forall d
      ensures d in Refundable(rest, height) <==> d in Refundable(rest[1..], height) + first
    {
      if i :| 0 <= i < |rest| && NeedsRefund(rest[i], height) && KeyOf(rest[i].alert) == d {
        if i > 0 {
          assert rest[1..][i - 1] == rest[i];
        }
      }
      if i :| 0 <= i < |rest[1..]| && NeedsRefund(rest[1..][i], height) && KeyOf(rest[1..][i].alert) == d {
        assert rest[i + 1] == rest[1..][i];
      }
    }
    Disjoint(Refundable(rest[1..], height), first, Refundable(rest, height));
  }

  lemma PayableAfter(c: Chain, rest: seq<AlertWithStatus>, height: uint64)
    requires rest != []
    ensures Payable(c, rest, height) <==>
            Payable(c, rest[1..], height) && (Due(rest[0], height) ==> CanPay(c, rest[0]))
  {
    assert forall i :: 0 < i < |rest| ==> rest[i] == rest[1..][i - 1];
  }

  lemma OwnersAdd(c: Chain, before: Table, after: Table, first: set<AlertKey>, later: set<AlertKey>, a: Address)
    requires first !! later
    requires forall j | j in later :: j in after && j in before && after[j] == before[j]
    ensures |OwnedBy(c, before, first + later, a)| == |OwnedBy(c, before, first, a)| + |OwnedBy(c, after, later, a)|
  {
    Disjoint(OwnedBy(c, before, first, a), OwnedBy(c, after, later, a), OwnedBy(c, before, first + later, a));
  }

  /** Refunds after refunds. */
  lemma PaidThenPaid(c: Chain, s: State, t: State, u: State, first: set<AlertKey>, later: set<AlertKey>)
    requires Paid(c, s, t, first, {}) && Paid(c, t, u, later, {})
    requires forall j | j in later :: j in t.alerts && j in s.alerts && t.alerts[j] == s.alerts[j]
    ensures Paid(c, s, u, first + later, {}) && first + later == Open(s.alerts) - Open(u.alerts)
  {
    hide Bonds, Open, OwnedBy;
    assert first !! later;
    BondsAdd(c, |first|, |later|);
    BondsAdd(c, 0, 0);
    Disjoint(first, later, first + later);
    forall a
      ensures u.bank.Balance(a) == s.bank.Balance(a) + Bonds(c, |OwnedBy(c, s.alerts, first + later, a)|)
    {
      OwnersAdd(c, s.alerts, t.alerts, first, later, a);
      BondsAdd(c, |OwnedBy(c, s.alerts, first, a)|, |OwnedBy(c, t.alerts, later, a)|);
    }
  }

  lemma NothingPaid(c: Chain, s: State)
    ensures Paid(c, s, s, {}, {}) && Open(s.alerts) - Open(s.alerts) == {}
  {
    BondsAdd(c, 0, 0);
    assert forall a :: OwnedBy(c, s.alerts, {}, a) == {};
  }

  /** What one turn of the loop makes of a due alert; None when the bank refuses the refund. */
  ghost function Pruned(c: Chain, s: State, a: AlertWithStatus): Option<State> {
    if a.status.conclusion == CONCLUDED then Some(s.(alerts := s.alerts - {KeyOf(a.alert)}))
    else match Concluded(c, s, a.alert, POSITIVE)
      case Err(_) => None
      case Ok(settled) => Some(settled.(alerts := settled.alerts - {KeyOf(a.alert)}))
  }

  /** Removing a concluded alert moves no money. */
  lemma RemovalPaysNothing(c: Chain, s: State, k: AlertKey)
    requires Stored(c, s.alerts) && k in s.alerts && k !in Open(s.alerts)
    ensures var t := s.(alerts := s.alerts - {k});
            Stored(c, t.alerts) && Open(t.alerts) == Open(s.alerts) && Paid(c, s, t, {}, {})
  {
    var t := s.(alerts := s.alerts - {k});
    BondsAdd(c, 0, 0);
    assert forall a :: OwnedBy(c, s.alerts, {}, a) == {};
    assert Open(t.alerts) == Open(s.alerts);
  }

  lemma RefundedAndRemoved(c: Chain, s: State, a: Alert)
    requires Stored(c, s.alerts) && Concluded(c, s, a, POSITIVE).Ok?
    ensures var settled := Concluded(c, s, a, POSITIVE).value;
            var t := settled.(alerts := settled.alerts - {KeyOf(a)});
            && Stored(c, t.alerts) && t.alerts == s.alerts - {KeyOf(a)} && Open(s.alerts) - Open(t.alerts) == {KeyOf(a)}
            && Paid(c, s, t, {KeyOf(a)}, {})
  {
    hide Bonds, OwnedBy, Open, Paid, Stored, Concluded, Closed;
    var k, settled := KeyOf(a), Concluded(c, s, a, POSITIVE).value;
    ConclusionPays(c, s, a, POSITIVE);
    var t := settled.(alerts := settled.alerts - {k});
    RemovalPaysNothing(c, settled, k);
    PaidThenPaid(c, s, settled, t, {k}, {});
    assert {k} + {} == {k};
  }

  lemma PrunedOne(c: Chain, s: State, a: AlertWithStatus)
    requires Stored(c, s.alerts) && KeyOf(a.alert) in s.alerts && s.alerts[KeyOf(a.alert)] == a
    ensures Pruned(c, s, a).Some? <==>
            CanPay(c, a) && (a.status.conclusion != CONCLUDED ==> c.params.bond <= s.bank.escrow)
    ensures Pruned(c, s, a).None? ==> Concluded(c, s, a.alert, POSITIVE) == Err(BankRefused)
    ensures Pruned(c, s, a).Some? ==>
              var t := Pruned(c, s, a).value;
              && Stored(c, t.alerts) && t.alerts == s.alerts - {KeyOf(a.alert)}
              && Open(s.alerts) - Open(t.alerts) == (if a.status.conclusion != CONCLUDED then {KeyOf(a.alert)} else {})
              && Paid(c, s, t, Open(s.alerts) - Open(t.alerts), {})
              && s.bank.escrow == t.bank.escrow + if a.status.conclusion != CONCLUDED then c.params.bond else 0
  {
    hide Bonds, OwnedBy;
    BondsAdd(c, 0, 1);
    if a.status.conclusion == CONCLUDED {
      RemovalPaysNothing(c, s, KeyOf(a.alert));
    } else {
      ConclusionSucceeds(c, s, a.alert, POSITIVE);
      if Concluded(c, s, a.alert, POSITIVE).Ok? {
        RefundedAndRemoved(c, s, a.alert);
      }
    }
  }

  /** One turn of the pruning loop. */
  lemma SweepTurn(c: Chain, s: State, rest: seq<AlertWithStatus>, height: uint64)
    requires rest != []
    ensures Swept(c, s, rest, height) ==
            if !Due(rest[0], height) then Swept(c, s, rest[1..], height)
            else if Pruned(c, s, rest[0]).Some? then Swept(c, Pruned(c, s, rest[0]).value, rest[1..], height)
            else (s, Some(Concluded(c, s, rest[0].alert, POSITIVE).error))
    ensures Pruned(c, s, rest[0]).None? ==> Concluded(c, s, rest[0].alert, POSITIVE).Err?
  {
  }

  /** The pruning loop from any point of its snapshot, in whatever order the snapshot is and whatever the
      escrow holds: the bonds that leave it go to the signers of due alerts, even when the loop stops early,
      and no other alert changes. */
  lemma {:induction false} SweepPays(c: Chain, s: State, rest: seq<AlertWithStatus>, height: uint64)
    requires Stored(c, s.alerts) && Ahead(rest, s.alerts)
    ensures var s' := Swept(c, s, rest, height).0;
            && Stored(c, s'.alerts) && Paid(c, s, s', Open(s.alerts) - Open(s'.alerts), {})
            && s'.alerts.Keys <= s.alerts.Keys
            && (forall k | k in s'.alerts :: s'.alerts[k] == s.alerts[k])
            && forall k | k in s.alerts && k !in s'.alerts :: k in DueKeys(rest, height)
    decreases |rest|
  {
    hide Bonds, Open, OwnedBy, Stored, Paid, Concluded, Swept, Pruned, Ahead, DueKeys;
    if rest == [] {
      NothingPaid(c, s);
      NothingSwept(c, s, height);
    } else {
      var a := rest[0];
      SweepTurn(c, s, rest, height);
      AheadAfter(rest, s.alerts, height);
      if !Due(a, height) {
        SweepPays(c, s, rest[1..], height);
      } else {
        PrunedOne(c, s, a);
        if Pruned(c, s, a).Some? {
          var t := Pruned(c, s, a).value;
          SweepPays(c, t, rest[1..], height);
          var s' := Swept(c, t, rest[1..], height).0;
          OpenIsStored(t.alerts);
          PaidThenPaid(c, s, t, s', Open(s.alerts) - Open(t.alerts), Open(t.alerts) - Open(s'.alerts));
        } else {
          NothingPaid(c, s);
        }
      }
    }
  }

  /** ... and it gets through exactly when the bank can pay the signers of all due open alerts and the
      escrow covers that many bonds; then exactly the due alerts are gone. */
  lemma {:induction false} SweepSucceeds(c: Chain, s: State, rest: seq<AlertWithStatus>, height: uint64)
    requires Stored(c, s.alerts) && Ahead(rest, s.alerts)
    ensures var (s', error) := Swept(c, s, rest, height);
            && (error.None? <==> Payable(c, rest, height) && Bonds(c, |Refundable(rest, height)|) <= s.bank.escrow)
            && (error.None? ==> s'.alerts == s.alerts - DueKeys(rest, height))
            && (error.Some? ==> error == Some(BankRefused))
    decreases |rest|
  {
    hide Bonds, Open, OwnedBy, Stored, Paid, Concluded, Refundable, Swept, Pruned, CanPay, Ahead, Payable, DueKeys;
    if rest == [] {
      NothingSwept(c, s, height);
      NothingRefundable(c, height);
    } else {
      var a := rest[0];
      SweepTurn(c, s, rest, height);
      AheadAfter(rest, s.alerts, height);
      PayableAfter(c, rest, height);
      RefundableAfter(rest, s.alerts, height);
      if !Due(a, height) {
        SweepSucceeds(c, s, rest[1..], height);
      } else {
        PrunedOne(c, s, a);
        BondsAdd(c, |Refundable(rest[1..], height)|, 1);
        if Pruned(c, s, a).Some? {
          SweepSucceeds(c, Pruned(c, s, a).value, rest[1..], height);
        }
      }
    }
  }

  lemma NothingSwept(c: Chain, s: State, height: uint64)
    ensures Swept(c, s, [], height) == (s, None)
  {
  }

  lemma NothingRefundable(c: Chain, height: uint64)
    ensures Bonds(c, |Refundable([], height)|) == 0 && Payable(c, [], height) && DueKeys([], height) == {}
  {
    assert Refundable([], height) == {};
  }

  /** The open alerts that are due. */
  ghost function DueOpen(alerts: Table, height: uint64): set<AlertKey> {
    set k | k in Open(alerts) && k in alerts && Due(alerts[k], height)
  }

  /** A successful pruning leaves exactly the alerts purged later, unchanged. It succeeds exactly when the
      bank can pay the signer of every due alert that is still open and the escrow covers those bonds, which
      a backed escrow always does. Either way every bond that left escrow went to its signer, and a backed
      escrow stays backed. */
  lemma PruningLeavesTheRest(c: Chain, s: State, list: seq<AlertWithStatus>, height: uint64)
    requires Stored(c, s.alerts) && Snapshot(list, s.alerts)
    ensures var (s', error) := Swept(c, s, list, height);
            var payable := forall k | k in s.alerts && Due(s.alerts[k], height) :: CanPay(c, s.alerts[k]);
            && Stored(c, s'.alerts) && Paid(c, s, s', Open(s.alerts) - Open(s'.alerts), {})
            && (error.None? <==> payable && Bonds(c, |DueOpen(s.alerts, height)|) <= s.bank.escrow)
            && (Sound(c, s) ==> Sound(c, s') && (error.None? <==> payable))
            && (error.None? ==>
                  s'.alerts == map k | k in s.alerts && s.alerts[k].status.purgeHeight > height :: s.alerts[k])
            && forall k | k in s.alerts && !Due(s.alerts[k], height) :: k in s'.alerts && s'.alerts[k] == s.alerts[k]
  {
    hide Bonds, OwnedBy, Paid, Swept, CanPay, Stored, Open;
    SweepPays(c, s, list, height);
    SweepSucceeds(c, s, list, height);
    StoredIsKeyed(c, s.alerts);
    DueInTable(c, s.alerts, list, height);
    if Sound(c, s) {
      var s' := Swept(c, s, list, height).0;
      PaidKeepsBacking(c, s, s', Open(s.alerts) - Open(s'.alerts), {});
      DueOpenIsCovered(c, s, height);
    }
  }

  lemma StoredIsKeyed(c: Chain, alerts: Table)
    requires Stored(c, alerts)
    ensures Keyed(alerts) && forall k | k in alerts :: alerts[k].status.conclusion <= CONCLUDED
  {
  }

  lemma DueOpenIsCovered(c: Chain, s: State, height: uint64)
    requires Sound(c, s)
    ensures Bonds(c, |DueOpen(s.alerts, height)|) <= s.bank.escrow
  {
    var due := DueOpen(s.alerts, height);
    Disjoint(due, Open(s.alerts) - due, Open(s.alerts));
    BondsAdd(c, |due|, |Open(s.alerts) - due|);
  }

  lemma DueInTable(c: Chain, alerts: Table, list: seq<AlertWithStatus>, height: uint64)
    requires Snapshot(list, alerts) && Keyed(alerts)
             && forall k | k in alerts :: alerts[k].status.conclusion <= CONCLUDED
    ensures DueKeys(list, height) == set k | k in alerts && Due(alerts[k], height)
    ensures Refundable(list, height) == DueOpen(alerts, height)
    ensures Payable(c, list, height) <==> forall k | k in alerts && Due(alerts[k], height) :: CanPay(c, alerts[k])
  {
    forall k | k in alerts
      ensures exists i :: 0 <= i < |list| && list[i] == alerts[k] && KeyOf(list[i].alert) == k
    {
      assert alerts[k] in list;
    }
    assert forall i :: 0 <= i < |list| ==> KeyOf(list[i].alert) in alerts && alerts[KeyOf(list[i].alert)] == list[i];
  }
}
