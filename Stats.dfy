/**
 * The summary figures the review screens show for a reconciliation: the
 * totals of both feeds, how many entries are in each review state, the
 * unmatched totals, the number of groups and the matched rate.
 */
module Stats {
  import opened Types

  /** The figures `getReconciliationStats` reports; amounts in cents. */
  datatype ReconciliationStats = ReconciliationStats(
    bankTotal: int,
    glTotal: int,
    difference: int,
    totalBankTransactions: nat,
    totalGLTransactions: nat,
    unmatchedBankTransactions: nat,
    unmatchedGLTransactions: nat,
    potentiallyMatchedBankTransactions: nat,
    potentiallyMatchedGLTransactions: nat,
    matchedBankTransactions: nat,
    matchedGLTransactions: nat,
    unmatchedBankTotal: int,
    unmatchedGLTotal: int,
    matchGroups: nat,
    matchedRate: real)

  /** Every entry is in exactly one of the three review states, so the three filters split the list. */
  lemma {:induction false} CountsPartition(txs: seq<Txn>)
    ensures |WithStatus(txs, Unmatched)| + |WithStatus(txs, Potential)| + |WithStatus(txs, Matched)| == |txs|
  {
    if txs != [] {
      CountsPartition(txs[..|txs| - 1]);
    }
  }

  lemma {:induction false} SumAppendOne(w: seq<Txn>, t: Txn)
    ensures Sum(w + [t]) == Sum(w) + t.amount
  {
    assert (w + [t])[..|w|] == w;
  }

  /** Extending the list by one entry adds its amount to its own state's filtered total only. */
  lemma {:induction false} SumWithStatusStep(txs: seq<Txn>, s: MatchStatus)
    requires txs != []
    ensures Sum(WithStatus(txs, s)) ==
      Sum(WithStatus(txs[..|txs| - 1], s)) + (if txs[|txs| - 1].matchStatus == s then txs[|txs| - 1].amount else 0)
  {
    var init := txs[..|txs| - 1];
    var last := txs[|txs| - 1];
    var w := WithStatus(init, s);
    if last.matchStatus == s {
      assert WithStatus(txs, s) == w + [last];
      SumAppendOne(w, last);
    } else {
      assert WithStatus(txs, s) == w + [];
      assert w + [] == w;
    }
  }

  /** The three filters split the total amount as well as the count. */
  lemma {:induction false} SumsPartition(txs: seq<Txn>)
    ensures Sum(WithStatus(txs, Unmatched)) + Sum(WithStatus(txs, Potential)) + Sum(WithStatus(txs, Matched)) == Sum(txs)
  {
    if txs != [] {
      SumsPartition(txs[..|txs| - 1]);
      SumWithStatusStep(txs, Unmatched);
      SumWithStatusStep(txs, Potential);
      SumWithStatusStep(txs, Matched);
    }
  }

  /** When every entry has the state, filtering by it keeps the whole list. */
  lemma {:induction false} AllWithStatusKeepsAll(txs: seq<Txn>, s: MatchStatus)
    requires forall i :: 0 <= i < |txs| ==> txs[i].matchStatus == s
    ensures WithStatus(txs, s) == txs
  {
    if txs != [] {
      var init, last := txs[..|txs| - 1], txs[|txs| - 1];
      assert forall i :: 0 <= i < |init| ==> init[i].matchStatus == s by {
        forall i | 0 <= i < |init| ensures init[i].matchStatus == s {
          assert init[i] == txs[i];
        }
      }
      AllWithStatusKeepsAll(init, s);
      calc {
        WithStatus(txs, s);
        WithStatus(init, s) + [last];
        init + [last];
        txs;
      }
    }
  }


  /** When filtering by a state keeps as many entries as there are, every entry has it. */
  lemma {:induction false} KeepsAllWithStatus(txs: seq<Txn>, s: MatchStatus)
    requires |WithStatus(txs, s)| == |txs|
    ensures forall i :: 0 <= i < |txs| ==> txs[i].matchStatus == s
  {
    if txs != [] {
      var init, last := txs[..|txs| - 1], txs[|txs| - 1];
      assert WithStatus(txs, s) == WithStatus(init, s) + (if last.matchStatus == s then [last] else []);
      assert |WithStatus(init, s)| <= |init|;
      KeepsAllWithStatus(init, s);
      forall i | 0 <= i < |txs| ensures txs[i].matchStatus == s {
        if i < |init| {
          assert txs[i] == init[i];
        }
      }
    }
  }

  /** A filter keeps the whole list exactly when every entry is in that state. */
  lemma AllWithStatus(txs: seq<Txn>, s: MatchStatus)
    ensures |WithStatus(txs, s)| == |txs| <==> forall i :: 0 <= i < |txs| ==> txs[i].matchStatus == s
  {
    if forall i :: 0 <= i < |txs| ==> txs[i].matchStatus == s {
      AllWithStatusKeepsAll(txs, s);
    }
    if |WithStatus(txs, s)| == |txs| {
      KeepsAllWithStatus(txs, s);
    }
  }



  /** The counts and totals of one side of the reconciliation, as the statistics report them. */
  lemma SideFacts(txs: seq<Txn>)
    ensures |WithStatus(txs, Unmatched)| + |WithStatus(txs, Potential)| + |WithStatus(txs, Matched)| == |txs|
    ensures Sum(WithStatus(txs, Unmatched)) == Sum(txs) - Sum(WithStatus(txs, Potential)) - Sum(WithStatus(txs, Matched))
    ensures |WithStatus(txs, Unmatched)| == 0 <==> forall i :: 0 <= i < |txs| ==> txs[i].matchStatus != Unmatched
  {
    CountsPartition(txs);
    SumsPartition(txs);
    NoneWithStatus(txs, Unmatched);
  }

  /** The match rate of the bank side: 0 exactly when nothing is matched, 100 exactly when everything is. */
  lemma RateFacts(bank: seq<Txn>)
    ensures |WithStatus(bank, Matched)| <= |bank|
    ensures var rate := Rate(|WithStatus(bank, Matched)|, |bank|);
            && (rate == 0.0 <==> forall i :: 0 <= i < |bank| ==> bank[i].matchStatus != Matched)
            && (rate == 100.0 <==> |bank| > 0 && forall i :: 0 <= i < |bank| ==> bank[i].matchStatus == Matched)
  {
    NoneWithStatus(bank, Matched);
    AllWithStatus(bank, Matched);
    RateRange(|WithStatus(bank, Matched)|, |bank|);
  }

  /**
   * The statistics of the two feeds and the group list. Each count and total
   * is that of the entries in its review state (`WithStatusMembers` says which
   * entries those are), and the three states split each feed's count and
   * total. The matched rate counts only members of confirmed groups
   * (`matched`); `MatchedRateMeaning` states its range and its 0 and 100 cases.
   */
  function GetReconciliationStats(bank: seq<Txn>, gl: seq<Txn>, groups: seq<MatchGroup>): (r: ReconciliationStats)
    ensures r.bankTotal == Sum(bank) && r.glTotal == Sum(gl)
    ensures r.difference == Sum(bank) - Sum(gl)
    ensures && r.unmatchedBankTransactions == |WithStatus(bank, Unmatched)|
            && r.potentiallyMatchedBankTransactions == |WithStatus(bank, Potential)|
            && r.matchedBankTransactions == |WithStatus(bank, Matched)|
    ensures && r.unmatchedGLTransactions == |WithStatus(gl, Unmatched)|
            && r.potentiallyMatchedGLTransactions == |WithStatus(gl, Potential)|
            && r.matchedGLTransactions == |WithStatus(gl, Matched)|
    ensures r.unmatchedBankTotal == Sum(WithStatus(bank, Unmatched)) && r.unmatchedGLTotal == Sum(WithStatus(gl, Unmatched))
    ensures r.totalBankTransactions == |bank| && r.totalGLTransactions == |gl|
    ensures r.unmatchedBankTransactions + r.potentiallyMatchedBankTransactions + r.matchedBankTransactions == |bank|
    ensures r.unmatchedGLTransactions + r.potentiallyMatchedGLTransactions + r.matchedGLTransactions == |gl|
    ensures r.unmatchedBankTotal == r.bankTotal - Sum(WithStatus(bank, Potential)) - Sum(WithStatus(bank, Matched))
    ensures r.unmatchedGLTotal == r.glTotal - Sum(WithStatus(gl, Potential)) - Sum(WithStatus(gl, Matched))
    ensures r.unmatchedBankTransactions == 0 <==> forall i :: 0 <= i < |bank| ==> bank[i].matchStatus != Unmatched
    ensures r.unmatchedGLTransactions == 0 <==> forall i :: 0 <= i < |gl| ==> gl[i].matchStatus != Unmatched
    ensures r.matchGroups == |groups|
    ensures r.matchedRate == Rate(r.matchedBankTransactions, r.totalBankTransactions)
  {
    SideFacts(bank);
    SideFacts(gl);
    RateFacts(bank);
    var bankTotal := Sum(bank);
    var glTotal := Sum(gl);
    var unmatchedBank := WithStatus(bank, Unmatched);
    var unmatchedGL := WithStatus(gl, Unmatched);
    var matchedBank := WithStatus(bank, Matched);
    ReconciliationStats(
      bankTotal,
      glTotal,
      bankTotal - glTotal,
      |bank|,
      |gl|,
      |unmatchedBank|,
      |unmatchedGL|,
      |WithStatus(bank, Potential)|,
      |WithStatus(gl, Potential)|,
      |matchedBank|,
      |WithStatus(gl, Matched)|,
      Sum(unmatchedBank),
      Sum(unmatchedGL),
      |groups|,
      Rate(|matchedBank|, |bank|))
  }
  /**
   * The reported rate lies between 0 and 100; it is 0 exactly when no bank
   * entry is matched, and 100 exactly when there are bank entries and all of
   * them are matched.
   */
  lemma MatchedRateMeaning(bank: seq<Txn>, gl: seq<Txn>, groups: seq<MatchGroup>)
    ensures var r := GetReconciliationStats(bank, gl, groups);
            && 0.0 <= r.matchedRate <= 100.0
            && (r.matchedRate == 0.0 <==> forall i :: 0 <= i < |bank| ==> bank[i].matchStatus != Matched)
            && (r.matchedRate == 100.0 <==> |bank| > 0 && forall i :: 0 <= i < |bank| ==> bank[i].matchStatus == Matched)
  {
    RateFacts(bank);
    var r := GetReconciliationStats(bank, gl, groups);
    assert r.matchedRate == Rate(|WithStatus(bank, Matched)|, |bank|);
    RateRange(|WithStatus(bank, Matched)|, |bank|);
  }


  /** Two lists agree position by position on everything the statistics read: amount and review state. */
  predicate SameFigures(a: seq<Txn>, b: seq<Txn>)
  {
    && |a| == |b|
    && forall i :: 0 <= i < |a| ==> a[i].amount == b[i].amount && a[i].matchStatus == b[i].matchStatus
  }

  lemma SameFiguresInit(a: seq<Txn>, b: seq<Txn>)
    requires SameFigures(a, b) && a != []
    ensures SameFigures(a[..|a| - 1], b[..|b| - 1])
  {
    var a0, b0 := a[..|a| - 1], b[..|b| - 1];
    forall i | 0 <= i < |a0| ensures a0[i].amount == b0[i].amount && a0[i].matchStatus == b0[i].matchStatus {
      assert a0[i] == a[i] && b0[i] == b[i];
    }
  }

  lemma {:induction false} SameFiguresSum(a: seq<Txn>, b: seq<Txn>)
    requires SameFigures(a, b)
    ensures Sum(a) == Sum(b)
  {
    if a != [] {
      SameFiguresInit(a, b);
      SameFiguresSum(a[..|a| - 1], b[..|b| - 1]);
    }
  }

  lemma {:induction false} SameFiguresFiltered(a: seq<Txn>, b: seq<Txn>, s: MatchStatus)
    requires SameFigures(a, b)
    ensures |WithStatus(a, s)| == |WithStatus(b, s)|
    ensures Sum(WithStatus(a, s)) == Sum(WithStatus(b, s))
  {
    if a != [] {
      SameFiguresInit(a, b);
      SameFiguresFiltered(a[..|a| - 1], b[..|b| - 1], s);
      SumWithStatusStep(a, s);
      SumWithStatusStep(b, s);
    }
  }

  /**
   * The statistics read only amounts, review states and the number of
   * groups: edits that keep those (a note, a description) leave every figure as it was.
   */
  lemma StatsDependOnlyOnFigures(bank: seq<Txn>, bank': seq<Txn>, gl: seq<Txn>, gl': seq<Txn>,
                                 groups: seq<MatchGroup>, groups': seq<MatchGroup>)
    requires SameFigures(bank, bank') && SameFigures(gl, gl') && |groups| == |groups'|
    ensures GetReconciliationStats(bank, gl, groups) == GetReconciliationStats(bank', gl', groups')
  {
    SameFiguresSum(bank, bank');
    SameFiguresSum(gl, gl');
    SameFiguresFiltered(bank, bank', Unmatched);
    SameFiguresFiltered(bank, bank', Potential);
    SameFiguresFiltered(bank, bank', Matched);
    SameFiguresFiltered(gl, gl', Unmatched);
    SameFiguresFiltered(gl, gl', Potential);
    SameFiguresFiltered(gl, gl', Matched);
  }
}
