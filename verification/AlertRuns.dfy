/** Runs of the alerts module: every bond that enters the escrow leaves it once, by a conclusion or by
    pruning, and what a change of the bond parameter leaves possible. */
module AlertRuns {
  import opened Wrappers
  import opened Varint
  import opened StakeMedian
  import opened Alerts
  import opened AlertEscrow

  datatype Op =
    | File(a: Alert, height: uint64, timestamp: uint64, hasPair: bool)
    | Conclude(a: Alert, verdict: uint64)
    | EndBlock(height: uint64, list: seq<AlertWithStatus>)

  /** One call, failed ones included, as the methods of the keeper carry it out. */
  ghost predicate Step(c: Chain, s: State, op: Op, s': State) {
    match op
    case File(a, height, timestamp, hasPair) =>
      var r := Submitted(c, s, a, height, timestamp, hasPair);
      s' == if r.Ok? then r.value else s
    case Conclude(a, verdict) =>
      var r := Concluded(c, s, a, verdict);
      s' == if r.Ok? then r.value else s
    case EndBlock(height, list) =>
      if c.params.pruningEnabled then Snapshot(list, s.alerts) && s' == Swept(c, s, list, height).0 else s' == s
  }

  ghost predicate IsRun(c: Chain, states: seq<State>, ops: seq<Op>) {
    && |states| == |ops| + 1
    && forall i :: 0 <= i < |ops| ==> Step(c, states[i], ops[i], states[i + 1])
  }

  // ---------------------------------------------------------------- filings and payouts

  /** The alert an operation files: accepted, and its bond escrowed. */
  ghost function FiledBy(c: Chain, s: State, op: Op): set<AlertKey> {
    if op.File? && Submitted(c, s, op.a, op.height, op.timestamp, op.hasPair).Ok? then {KeyOf(op.a)} else {}
  }

  /** The alerts the pruning loop concludes before it removes them, up to the first it cannot conclude. */
  ghost function SweepRefunds(c: Chain, s: State, rest: seq<AlertWithStatus>, height: uint64): set<AlertKey>
    decreases |rest|
  {
    if rest == [] then {}
    else
      var a := rest[0];
      if a.status.purgeHeight > height then SweepRefunds(c, s, rest[1..], height)
      else if a.status.conclusion == CONCLUDED then
        SweepRefunds(c, s.(alerts := s.alerts - {KeyOf(a.alert)}), rest[1..], height)
      else match Concluded(c, s, a.alert, POSITIVE)
        case Err(_) => {}
        case Ok(settled) =>
          {KeyOf(a.alert)} + SweepRefunds(c, settled.(alerts := settled.alerts - {KeyOf(a.alert)}), rest[1..], height)
  }

  /** The alerts whose bond an operation pays out: the one it concludes, or those its sweep refunds. */
  ghost function Payouts(c: Chain, s: State, op: Op): set<AlertKey> {
    match op
    case File(_, _, _, _) => {}
    case Conclude(a, verdict) => if Concluded(c, s, a, verdict).Ok? then {KeyOf(a)} else {}
    case EndBlock(height, list) => if c.params.pruningEnabled then SweepRefunds(c, s, list, height) else {}
  }

  predicate Slashes(op: Op) {
    op.Conclude? && op.verdict != POSITIVE
  }

  lemma {:induction false} SweepRefundsClose(c: Chain, s: State, rest: seq<AlertWithStatus>, height: uint64)
    requires Stored(c, s.alerts) && Ahead(rest, s.alerts)
    ensures var s' := Swept(c, s, rest, height).0;
            SweepRefunds(c, s, rest, height) == Open(s.alerts) - Open(s'.alerts) && Open(s'.alerts) <= Open(s.alerts)
    decreases |rest|
  {
    hide Bonds, Open, OwnedBy, Stored, Paid, Concluded;
    if rest != [] {
      var a := rest[0];
      AheadAfter(rest, s.alerts, height);
      if !Due(a, height) {
        SweepRefundsClose(c, s, rest[1..], height);
      } else {
        PrunedOne(c, s, a);
        if Pruned(c, s, a).Some? {
          var t := Pruned(c, s, a).value;
          SweepRefundsClose(c, t, rest[1..], height);
          RemovalShrinks(s.alerts, KeyOf(a.alert));
          var s' := Swept(c, t, rest[1..], height).0;
          assert Open(s'.alerts) - Open(t.alerts) == {};
          DifferencesChain(Open(s.alerts), Open(t.alerts), Open(s'.alerts));
          assert {} + SweepRefunds(c, t, rest[1..], height) == SweepRefunds(c, t, rest[1..], height);
        }
      }
    }
  }

  lemma RemovalShrinks(alerts: Table, k: AlertKey)
    ensures Open(alerts - {k}) - Open(alerts) == {}
  {
  }

  /** From s to s' exactly the alerts in `filed` opened and those in `paid` closed, each with one bond: taken
      from the signer of the filed alert, and given back to the stored signer or, when slashed, burned. */
  ghost predicate Moved(c: Chain, s: State, s': State, filed: set<AlertKey>, paid: set<AlertKey>, slash: bool) {
    && filed == Open(s'.alerts) - Open(s.alerts)
    && paid == Open(s.alerts) - Open(s'.alerts)
    && s'.bank.escrow + Bonds(c, |paid|) == s.bank.escrow + Bonds(c, |filed|)
    && s'.bank.burned == s.bank.burned + (if slash then Bonds(c, |paid|) else 0)
    && forall a :: s'.bank.Balance(a) + Bonds(c, |OwnedBy(c, s'.alerts, filed, a)|)
                == s.bank.Balance(a) + if slash then 0 else Bonds(c, |OwnedBy(c, s.alerts, paid, a)|)
  }

  lemma PaidIsMoved(c: Chain, s: State, s': State, slash: bool)
    requires var closed := Open(s.alerts) - Open(s'.alerts);
             if slash then Paid(c, s, s', {}, closed) else Paid(c, s, s', closed, {})
    ensures Moved(c, s, s', {}, Open(s.alerts) - Open(s'.alerts), slash)
  {
    hide Bonds, Open;
    assert Open(s'.alerts) - Open(s.alerts) == {};
    BondsAdd(c, 0, 0);
    forall a
      ensures OwnedBy(c, s'.alerts, {}, a) == {} && OwnedBy(c, s.alerts, {}, a) == {}
    {
    }
  }

  lemma FilingMoves(c: Chain, s: State, op: Op)
    requires op.File? && Stored(c, s.alerts) && Submitted(c, s, op.a, op.height, op.timestamp, op.hasPair).Ok?
    ensures var s' := Submitted(c, s, op.a, op.height, op.timestamp, op.hasPair).value;
            Stored(c, s'.alerts) && Moved(c, s, s', {KeyOf(op.a)}, {}, false)
  {
    hide Bonds, Submitted, Sound, Open, Stored;
    var s' := Submitted(c, s, op.a, op.height, op.timestamp, op.hasPair).value;
    FilingBacksTheAlert(c, s, op.a, op.height, op.timestamp, op.hasPair);
    OpenIsStored(s.alerts);
    assert Open(s'.alerts) - Open(s.alerts) == {KeyOf(op.a)};
    assert Open(s.alerts) - Open(s'.alerts) == {};
    BondsAdd(c, 0, 1);
    forall a
      ensures |OwnedBy(c, s'.alerts, {KeyOf(op.a)}, a)| == if c.decode(op.a.signer) == Some(a) then 1 else 0
      ensures |OwnedBy(c, s.alerts, {}, a)| == 0
    {
      OwnersOfFew(c, s'.alerts, KeyOf(op.a), a);
      assert OwnedBy(c, s.alerts, {}, a) == {};
    }
  }

  lemma SnapshotIsAhead(list: seq<AlertWithStatus>, alerts: Table)
    requires Snapshot(list, alerts)
    ensures Ahead(list, alerts)
  {
  }

  /** Every call, failed ones included, opens what it files and closes what it pays out, and moves exactly
      one bond for each. */
  lemma StepMoves(c: Chain, s: State, op: Op, s': State)
    requires Step(c, s, op, s') && Stored(c, s.alerts)
    ensures Stored(c, s'.alerts) && Moved(c, s, s', FiledBy(c, s, op), Payouts(c, s, op), Slashes(op))
  {
    hide Bonds, Open, OwnedBy, Paid, Moved, Submitted, Concluded, Swept, Stored, SweepRefunds, Snapshot;
    NothingPaid(c, s);
    match op
    case File(_, _, _, _) =>
      if FiledBy(c, s, op) != {} {
        FilingMoves(c, s, op);
      } else {
        PaidIsMoved(c, s, s', false);
      }
    case Conclude(a, verdict) =>
      if Concluded(c, s, a, verdict).Ok? {
        ConclusionPays(c, s, a, verdict);
        ConclusionSucceeds(c, s, a, verdict);
        ConcludableIsOpen(c, s, a, verdict);
        assert Open(s.alerts) - Open(s'.alerts) == {KeyOf(a)};
      }
      PaidIsMoved(c, s, s', Slashes(op));
    case EndBlock(height, list) =>
      if c.params.pruningEnabled {
        SnapshotIsAhead(list, s.alerts);
        SweepPays(c, s, list, height);
        SweepRefundsClose(c, s, list, height);
      }
      PaidIsMoved(c, s, s', false);
  }

  lemma ConcludableIsOpen(c: Chain, s: State, a: Alert, verdict: uint64)
    requires Stored(c, s.alerts) && Concludable(c, s, a, verdict)
    ensures KeyOf(a) in Open(s.alerts)
  {
  }

  /** ... and a backed escrow stays backed. */
  lemma MovedKeepsBacking(c: Chain, s: State, s': State, filed: set<AlertKey>, paid: set<AlertKey>, slash: bool)
    requires Sound(c, s) && Stored(c, s'.alerts) && Moved(c, s, s', filed, paid, slash)
    ensures Sound(c, s')
  {
    hide Bonds, Open, Stored, OwnedBy;
    var kept := Open(s.alerts) * Open(s'.alerts);
    Disjoint(kept, paid, Open(s.alerts));
    Disjoint(kept, filed, Open(s'.alerts));
    BondsAdd(c, |kept|, |paid|);
    BondsAdd(c, |kept|, |filed|);
  }

  // ---------------------------------------------------------------- each bond leaves once

  ghost function Filings(c: Chain, states: seq<State>, ops: seq<Op>, k: AlertKey): nat
    requires |states| == |ops| + 1
  {
    if ops == [] then 0
    else
      var n := |ops| - 1;
      Filings(c, states[..n + 1], ops[..n], k) + if k in FiledBy(c, states[n], ops[n]) then 1 else 0
  }

  ghost function PayoutCount(c: Chain, states: seq<State>, ops: seq<Op>, k: AlertKey): nat
    requires |states| == |ops| + 1
  {
    if ops == [] then 0
    else
      var n := |ops| - 1;
      PayoutCount(c, states[..n + 1], ops[..n], k) + if k in Payouts(c, states[n], ops[n]) then 1 else 0
  }

  lemma {:induction false} RunStaysStored(c: Chain, states: seq<State>, ops: seq<Op>, i: nat)
    requires IsRun(c, states, ops) && Stored(c, states[0].alerts) && i <= |ops|
    ensures Stored(c, states[i].alerts)
  {
    hide Stored, Step;
    if i > 0 {
      RunStaysStored(c, states, ops, i - 1);
      StepMoves(c, states[i - 1], ops[i - 1], states[i]);
    }
  }

  lemma StepOpens(c: Chain, s: State, op: Op, s': State, k: AlertKey)
    requires Step(c, s, op, s') && Stored(c, s.alerts)
    ensures k in FiledBy(c, s, op) ==> k !in Open(s.alerts) && k in Open(s'.alerts)
    ensures k in Payouts(c, s, op) ==> k in Open(s.alerts) && k !in Open(s'.alerts)
    ensures k !in FiledBy(c, s, op) && k !in Payouts(c, s, op) ==> (k in Open(s'.alerts) <==> k in Open(s.alerts))
  {
    hide Step, Open, FiledBy, Payouts, Stored, Bonds, OwnedBy;
    StepMoves(c, s, op, s');
  }

  /** Over every run from an empty table: the bond filed under a key has been paid out as often as it was
      filed, except for the one that is still held while the alert is open. */
  lemma {:induction false} BondLeavesOnce(c: Chain, states: seq<State>, ops: seq<Op>, k: AlertKey)
    requires IsRun(c, states, ops) && states[0].alerts == map[]
    ensures Filings(c, states, ops, k)
         == PayoutCount(c, states, ops, k) + if k in Open(states[|ops|].alerts) then 1 else 0
    decreases |ops|
  {
    hide Step, FiledBy, Payouts, Stored, Open;
    NothingStored(c);
    if ops != [] {
      var n := |ops| - 1;
      var earlier := states[..n + 1];
      BondLeavesOnce(c, earlier, ops[..n], k);
      RunStaysStored(c, states, ops, n);
      StepOpens(c, states[n], ops[n], states[n + 1], k);
    }
  }

  lemma NothingStored(c: Chain)
    ensures Stored(c, map[]) && Open(map[]) == {}
  {
  }

  lemma {:induction false} StaysClosed(c: Chain, states: seq<State>, ops: seq<Op>, k: AlertKey, i: nat, j: nat)
    requires IsRun(c, states, ops) && Stored(c, states[0].alerts) && i <= j <= |ops| && k !in Open(states[i].alerts)
    requires forall m :: i <= m < j ==> k !in FiledBy(c, states[m], ops[m])
    ensures k !in Open(states[j].alerts)
    decreases j - i
  {
    hide Step, FiledBy, Payouts, Stored, Open;
    if i < j {
      StaysClosed(c, states, ops, k, i, j - 1);
      RunStaysStored(c, states, ops, j - 1);
      StepOpens(c, states[j - 1], ops[j - 1], states[j], k);
    }
  }

  /** No bond is paid out twice: between two payouts under one key a new bond was filed under it. */
  lemma PayoutsNeedFilings(c: Chain, states: seq<State>, ops: seq<Op>, k: AlertKey, i: nat, j: nat)
    requires IsRun(c, states, ops) && Stored(c, states[0].alerts) && i < j < |ops|
    requires k in Payouts(c, states[i], ops[i]) && k in Payouts(c, states[j], ops[j])
    ensures exists m :: i < m < j && k in FiledBy(c, states[m], ops[m])
  {
    hide Step, FiledBy, Payouts, Stored, Open;
    RunStaysStored(c, states, ops, i);
    RunStaysStored(c, states, ops, j);
    StepOpens(c, states[i], ops[i], states[i + 1], k);
    StepOpens(c, states[j], ops[j], states[j + 1], k);
    if forall m :: i < m < j ==> k !in FiledBy(c, states[m], ops[m]) {
      StaysClosed(c, states, ops, k, i + 1, j);
    }
  }

  // ---------------------------------------------------------------- conservation

  /** Bonds put into escrow by `a`, taken back by `a`, and burned, over the run. */
  ghost function Filed(c: Chain, states: seq<State>, ops: seq<Op>, a: Address): nat
    requires |states| == |ops| + 1
  {
    if ops == [] then 0
    else
      var n := |ops| - 1;
      Filed(c, states[..n + 1], ops[..n], a) + |OwnedBy(c, states[n + 1].alerts, FiledBy(c, states[n], ops[n]), a)|
  }

  ghost function Refunded(c: Chain, states: seq<State>, ops: seq<Op>, a: Address): nat
    requires |states| == |ops| + 1
  {
    if ops == [] then 0
    else
      var n := |ops| - 1;
      Refunded(c, states[..n + 1], ops[..n], a)
      + if Slashes(ops[n]) then 0 else |OwnedBy(c, states[n].alerts, Payouts(c, states[n], ops[n]), a)|
  }

  ghost function Slashed(c: Chain, states: seq<State>, ops: seq<Op>): nat
    requires |states| == |ops| + 1
  {
    if ops == [] then 0
    else
      var n := |ops| - 1;
      Slashed(c, states[..n + 1], ops[..n]) + if Slashes(ops[n]) then |Payouts(c, states[n], ops[n])| else 0
  }

  ghost predicate Conserved(c: Chain, states: seq<State>, ops: seq<Op>)
    requires |states| == |ops| + 1
  {
    var first, last := states[0].bank, states[|ops|].bank;
    && last.burned == first.burned + Bonds(c, Slashed(c, states, ops))
    && forall a :: last.Balance(a) + Bonds(c, Filed(c, states, ops, a))
         == first.Balance(a) + Bonds(c, Refunded(c, states, ops, a))
  }

  /** Conservation over any run: every account has paid one bond for each alert it filed and got one back
      for each of its alerts that was refunded, what was burned is one bond for each slashed alert, and from
      a backed start the escrow is one bond for every open alert. */
  lemma {:induction false} RunConservesBonds(c: Chain, states: seq<State>, ops: seq<Op>)
    requires IsRun(c, states, ops) && Stored(c, states[0].alerts)
    ensures Conserved(c, states, ops)
    ensures Sound(c, states[0]) ==> Sound(c, states[|ops|])
    decreases |ops|
  {
    hide Bonds, Sound, Step, Open, OwnedBy, FiledBy, Payouts, Stored, Slashes;
    BondsAdd(c, 0, 0);
    if ops != [] {
      var n := |ops| - 1;
      var earlier, s, s' := states[..n + 1], states[n], states[n + 1];
      RunConservesBonds(c, earlier, ops[..n]);
      RunStaysStored(c, states, ops, n);
      StepMoves(c, s, ops[n], s');
      if Sound(c, states[0]) {
        MovedKeepsBacking(c, s, s', FiledBy(c, s, ops[n]), Payouts(c, s, ops[n]), Slashes(ops[n]));
      }
      OneMoreStep(c, states, ops);
    }
  }

  lemma OneMoreStep(c: Chain, states: seq<State>, ops: seq<Op>)
    requires |states| == |ops| + 1 && ops != []
    requires var n := |ops| - 1;
             && Conserved(c, states[..n + 1], ops[..n])
             && Moved(c, states[n], states[n + 1], FiledBy(c, states[n], ops[n]), Payouts(c, states[n], ops[n]),
                      Slashes(ops[n]))
    ensures Conserved(c, states, ops)
  {
    hide Bonds, Open, OwnedBy, FiledBy, Payouts, Slashes;
    var n := |ops| - 1;
    var earlier, before, s, s' := states[..n + 1], ops[..n], states[n], states[n + 1];
    BondsAdd(c, 0, 0);
    BondsAdd(c, Slashed(c, earlier, before), if Slashes(ops[n]) then |Payouts(c, s, ops[n])| else 0);
    forall a
      ensures s'.bank.Balance(a) + Bonds(c, Filed(c, states, ops, a))
              == states[0].bank.Balance(a) + Bonds(c, Refunded(c, states, ops, a))
    {
      BondsAdd(c, Filed(c, earlier, before, a), |OwnedBy(c, s'.alerts, FiledBy(c, s, ops[n]), a)|);
      BondsAdd(c, Refunded(c, earlier, before, a),
               if Slashes(ops[n]) then 0 else |OwnedBy(c, s.alerts, Payouts(c, s, ops[n]), a)|);
    }
  }

  // ---------------------------------------------------------------- a changing bond

  /** Why the bond has to stay fixed: after a change the escrow is backed exactly when no alert was open. */
  lemma ChangedBondUnbacks(c: Chain, d: Chain, s: State)
    requires Sound(c, s) && d == c.(params := d.params) && d.params.bond != c.params.bond
    ensures Sound(d, s) <==> Open(s.alerts) == {}
  {
    var n := |Open(s.alerts)|;
    if n > 0 {
      assert d.params.bond * n != c.params.bond * n;
    }
  }

  /** Alerts filed and alerts settled over a run. */
  ghost function TotalFiled(d: Chain, states: seq<State>, ops: seq<Op>): nat
    requires |states| == |ops| + 1
  {
    if ops == [] then 0
    else
      var n := |ops| - 1;
      TotalFiled(d, states[..n + 1], ops[..n]) + |FiledBy(d, states[n], ops[n])|
  }

  ghost function TotalSettled(d: Chain, states: seq<State>, ops: seq<Op>): nat
    requires |states| == |ops| + 1
  {
    if ops == [] then 0
    else
      var n := |ops| - 1;
      TotalSettled(d, states[..n + 1], ops[..n]) + |Payouts(d, states[n], ops[n])|
  }

  lemma OpenCount(d: Chain, s: State, s': State, filed: set<AlertKey>, paid: set<AlertKey>, slash: bool)
    requires Moved(d, s, s', filed, paid, slash)
    ensures |Open(s'.alerts)| + |paid| == |Open(s.alerts)| + |filed|
  {
    hide Bonds, Open, OwnedBy;
    var kept := Open(s.alerts) * Open(s'.alerts);
    Disjoint(kept, paid, Open(s.alerts));
    Disjoint(kept, filed, Open(s'.alerts));
  }

  /** Over any run, whatever the escrow held at its start: it gained one bond for each alert filed and lost
      one for each alert settled. */
  lemma {:induction false} EscrowBalance(d: Chain, states: seq<State>, ops: seq<Op>)
    requires IsRun(d, states, ops) && Stored(d, states[0].alerts)
    ensures var first, last := states[0], states[|ops|];
            var filed, settled := TotalFiled(d, states, ops), TotalSettled(d, states, ops);
            && last.bank.escrow + Bonds(d, settled) == first.bank.escrow + Bonds(d, filed)
            && |Open(last.alerts)| + settled == |Open(first.alerts)| + filed
    decreases |ops|
  {
    hide Bonds, Step, Open, OwnedBy, Payouts, FiledBy, Stored, Slashes;
    BondsAdd(d, 0, 0);
    if ops != [] {
      var n := |ops| - 1;
      EscrowBalance(d, states[..n + 1], ops[..n]);
      RunStaysStored(d, states, ops, n);
      StepMoves(d, states[n], ops[n], states[n + 1]);
      OpenCount(d, states[n], states[n + 1], FiledBy(d, states[n], ops[n]), Payouts(d, states[n], ops[n]),
                Slashes(ops[n]));
      BondsAdd(d, TotalSettled(d, states[..n + 1], ops[..n]), |Payouts(d, states[n], ops[n])|);
      BondsAdd(d, TotalFiled(d, states[..n + 1], ops[..n]), |FiledBy(d, states[n], ops[n])|);
    }
  }

  /** After the bond changed from b to b' with n alerts open, over any run with f new filings: the alerts
      settled so far times b' never exceed n times b plus f times b', and one more can be settled exactly
      when that leaves b' for it. */
  lemma ChangedBondLimits(c: Chain, d: Chain, states: seq<State>, ops: seq<Op>, a: Alert, verdict: uint64)
    requires IsRun(d, states, ops) && d == c.(params := d.params) && Sound(c, states[0])
    ensures var n, last := |Open(states[0].alerts)|, states[|ops|];
            var filed, settled := TotalFiled(d, states, ops), TotalSettled(d, states, ops);
            && d.params.bond * settled <= c.params.bond * n + d.params.bond * filed
            && |Open(last.alerts)| == n + filed - settled
            && Stored(d, last.alerts)
            && (Concluded(d, last, a, verdict).Ok? <==>
                  && Concludable(d, last, a, verdict)
                  && d.params.bond * (settled + 1) <= c.params.bond * n + d.params.bond * filed)
  {
    hide Concluded, Concludable, TotalFiled, TotalSettled, Open, Step;
    EscrowBalance(d, states, ops);
    RunStaysStored(d, states, ops, |ops|);
    ConclusionSucceeds(d, states[|ops|], a, verdict);
    BondsAdd(d, TotalSettled(d, states, ops), 1);
  }

  /** ... and pruning gets through exactly when the signers can be paid and the due open alerts need no
      more than what the n old bonds left. */
  lemma ChangedBondPruning(c: Chain, d: Chain, s: State, list: seq<AlertWithStatus>, height: uint64)
    requires Sound(c, s) && d == c.(params := d.params) && Snapshot(list, s.alerts)
    ensures Swept(d, s, list, height).1.None? <==>
            && (forall k | k in s.alerts && Due(s.alerts[k], height) :: CanPay(d, s.alerts[k]))
            && d.params.bond * |DueOpen(s.alerts, height)| <= c.params.bond * |Open(s.alerts)|
  {
    PruningLeavesTheRest(d, s, list, height);
  }
}
