/** Which alerts are taken, how long they are kept, and which of them share a key. */
module AlertLaws {
  import opened Wrappers
  import opened Varint
  import opened StakeMedian
  import opened Alerts
  import opened AlertEscrow

  // ---------------------------------------------------------------- filing

  /** Exactly which alerts are filed, in plain numbers: for a height at most maxBlockAge blocks back (or so far
      ahead that the unsigned difference wraps to that little), not filed before, of a known pair, by a signer
      who can pay the bond. */
  lemma FilingExactly(c: Chain, s: State, a: Alert, height: uint64, timestamp: uint64, hasPair: bool)
    ensures Submitted(c, s, a, height, timestamp, hasPair).Ok? <==>
            && c.validPair(a.pair) && c.decode(a.signer).Some? && c.params.alertsEnabled && hasPair
            && (if a.height <= height then height - a.height <= c.params.maxBlockAge
                else a.height - height >= TWO_64 - c.params.maxBlockAge)
            && KeyOf(a) !in s.alerts
            && s.bank.Balance(c.decode(a.signer).value) >= c.params.bond
  {
    assert a.height <= height ==> Wrap(height - a.height) == height - a.height;
    assert a.height > height ==> Wrap(height - a.height) == height - a.height + TWO_64;
  }

  /** What is stored for a filed alert: open, with the block it was filed in. */
  lemma FiledRecord(c: Chain, s: State, a: Alert, height: uint64, timestamp: uint64, hasPair: bool)
    requires Submitted(c, s, a, height, timestamp, hasPair).Ok?
    ensures var filed := Submitted(c, s, a, height, timestamp, hasPair).value.alerts;
            && KeyOf(a) in filed && filed[KeyOf(a)].alert == a
            && filed[KeyOf(a)].status.conclusion == 0
            && filed[KeyOf(a)].status.submissionHeight == height
            && filed[KeyOf(a)].status.submissionTimestamp == timestamp
            && forall k | k in s.alerts :: k in filed && filed[k] == s.alerts[k]
  {
  }

  // ---------------------------------------------------------------- concluding

  /** The numbers of a verdict: 0 refunds the stored signer, 1 burns, any other is refused. The status stored
      is then 1, and everything else about the alert but its purge height stays. */
  lemma VerdictNumbers(c: Chain, s: State, a: Alert, verdict: uint64)
    requires Stored(c, s.alerts) && Concluded(c, s, a, verdict).Ok?
    ensures verdict == 0 || verdict == 1
    ensures var t, k := Concluded(c, s, a, verdict).value, KeyOf(a);
            && k in s.alerts && k in t.alerts
            && t.alerts[k].status.conclusion == 1 && t.alerts[k].alert == s.alerts[k].alert
            && t.bank.escrow == s.bank.escrow - c.params.bond
    ensures verdict == 0 ==>
              var t, signer := Concluded(c, s, a, 0).value, c.decode(s.alerts[KeyOf(a)].alert.signer).value;
              && t.bank.burned == s.bank.burned
              && t.bank.Balance(signer) == s.bank.Balance(signer) + c.params.bond
    ensures verdict == 1 ==>
              var t := Concluded(c, s, a, 1).value;
              t.bank.burned == s.bank.burned + c.params.bond && t.bank.accounts == s.bank.accounts
  {
    assert KeyOf(s.alerts[KeyOf(a)].alert) == KeyOf(a);
  }

  // ---------------------------------------------------------------- how long an alert is kept

  lemma KeptExactly(c: Chain, s: State, list: seq<AlertWithStatus>, height: uint64, k: AlertKey)
    requires Stored(c, s.alerts) && Snapshot(list, s.alerts) && Swept(c, s, list, height).1.None? && k in s.alerts
    ensures k in Swept(c, s, list, height).0.alerts <==> height < s.alerts[k].status.purgeHeight
  {
    PruningLeavesTheRest(c, s, list, height);
  }

  /** A filed alert is open, and stays in the table for exactly blocksToPrune blocks: a pruning at a later
      height removes it as soon as that many have passed and not before. */
  lemma FiledIsKept(c: Chain, s: State, a: Alert, height: uint64, timestamp: uint64, hasPair: bool,
                    list: seq<AlertWithStatus>, later: uint64)
    requires Stored(c, s.alerts) && Submitted(c, s, a, height, timestamp, hasPair).Ok?
    requires height + c.params.blocksToPrune < TWO_64
    requires var filed := Submitted(c, s, a, height, timestamp, hasPair).value;
             Snapshot(list, filed.alerts) && Swept(c, filed, list, later).1.None?
    ensures var filed := Submitted(c, s, a, height, timestamp, hasPair).value;
            && KeyOf(a) in Open(filed.alerts)
            && (KeyOf(a) in Swept(c, filed, list, later).0.alerts <==> later < height + c.params.blocksToPrune)
  {
    hide Swept, Snapshot, Stored;
    FilingBacksTheAlert(c, s, a, height, timestamp, hasPair);
    var filed := Submitted(c, s, a, height, timestamp, hasPair).value;
    KeptExactly(c, filed, list, later, KeyOf(a));
  }

  /** A concluded alert stays in the table until maxBlockAge blocks after the height it was filed for, so long
      as an alert for that height could still be filed. */
  lemma ConcludedIsKept(c: Chain, s: State, a: Alert, verdict: uint64, list: seq<AlertWithStatus>, later: uint64)
    requires Stored(c, s.alerts) && Concluded(c, s, a, verdict).Ok?
    requires a.height + c.params.maxBlockAge < TWO_64
    requires var settled := Concluded(c, s, a, verdict).value;
             Snapshot(list, settled.alerts) && Swept(c, settled, list, later).1.None?
    ensures var settled := Concluded(c, s, a, verdict).value;
            && KeyOf(a) in settled.alerts && KeyOf(a) !in Open(settled.alerts)
            && (KeyOf(a) in Swept(c, settled, list, later).0.alerts <==> later < a.height + c.params.maxBlockAge)
  {
    hide Swept, Snapshot;
    ConclusionPays(c, s, a, verdict);
    var settled := Concluded(c, s, a, verdict).value;
    assert KeyOf(s.alerts[KeyOf(a)].alert) == KeyOf(a);
    KeptExactly(c, settled, list, later, KeyOf(a));
  }

  // ---------------------------------------------------------------- keys

  ghost predicate NoSlash(s: string) {
    forall i :: 0 <= i < |s| ==> s[i] != '/'
  }

  /** Alerts for different heights or pairs have different keys, as long as no base contains a slash. */
  lemma KeysTellApart(a: Alert, b: Alert)
    requires NoSlash(a.pair.base) && NoSlash(b.pair.base) && KeyOf(a) == KeyOf(b)
    ensures a.height == b.height && a.pair == b.pair
  {
    var p, q := a.pair, b.pair;
    var text := KeyOf(a).ticker;
    assert text[|p.base|] == '/' && text[|q.base|] == '/';
    assert forall i :: 0 <= i < |p.base| ==> text[i] == p.base[i];
    assert forall i :: 0 <= i < |q.base| ==> text[i] == q.base[i];
    assert |p.base| == |q.base|;
    assert p.base == text[..|p.base|] && q.base == text[..|q.base|];
    assert p.quote == text[|p.base| + 1..] && q.quote == text[|q.base| + 1..];
  }

  /** With slashes in a name two pairs can share a key, and an alert for one blocks the other at that height. */
  lemma SlashedKeysCollide(height: uint64, signer: string)
    ensures var a, b := Alert(height, signer, CurrencyPair("A/B", "C")),
            Alert(height, signer, CurrencyPair("A", "B/C"));
            a.pair != b.pair && KeyOf(a) == KeyOf(b)
  {
    assert "A/B" + "/" + "C" == "A/B/C" == "A" + "/" + "B/C";
  }
}
