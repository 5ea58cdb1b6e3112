/**
 * The fuzzy matcher (`findPotentialMatches`): for each unmatched bank entry
 * it keeps the unmatched GL entries within 1% of the amount, prefers those
 * within five days, and of those picks the one the description search ranks
 * best. Every group it proposes is 1:1; GL entries are not consumed, so two
 * bank entries may propose the same GL entry.
 *
 * The description search (Fuse.js over the unmatched GL list) is an oracle
 * `search`: given the bank description and the unmatched GL list it returns
 * hits, each naming a position in that list and an optional score.
 */
module FuzzyMatcher {
  import opened Types

  /** A search hit: `refIndex` into the searched list, and `score` (lower is better). */
  datatype Hit = Hit(refIndex: int, score: Option<real>)

  /** The description search, as supplied by the caller. */
  type Search = (string, seq<Txn>) -> seq<Hit>

  /**
   * `Math.abs(b - g) / Math.abs(b) < 0.01`, on cents: the GL amount lies
   * within 1% of the bank amount. A zero bank amount divides by zero in the
   * engine (NaN or Infinity), which is never below 0.01.
   */
  predicate WithinTolerance(bankAmount: int, glAmount: int)
  {
    100 * Abs(bankAmount - glAmount) < Abs(bankAmount)
  }

  /** `Math.abs(differenceInDays(bankDate, glDate)) <= 5`, on day numbers. */
  predicate DateClose(bankDate: int, glDate: int)
  {
    Abs(bankDate - glDate) <= 5
  }

  /** `similarAmountGLs`: the entries whose amount is within 1% of the bank entry's, in order. */
  function SimilarAmount(b: Txn, gl: seq<Txn>): (r: seq<Txn>)
    ensures |r| <= |gl|
    ensures forall i :: 0 <= i < |r| ==> WithinTolerance(b.amount, r[i].amount)
  {
    if gl == [] then []
    else
      var t := gl[|gl| - 1];
      SimilarAmount(b, gl[..|gl| - 1]) + (if WithinTolerance(b.amount, t.amount) then [t] else [])
  }

  /** `dateMatchedGLs`: the entries dated within five days of the bank entry, in order. */
  function DateMatched(b: Txn, txs: seq<Txn>): (r: seq<Txn>)
    ensures |r| <= |txs|
    ensures forall i :: 0 <= i < |r| ==> DateClose(b.date, r[i].date)
  {
    if txs == [] then []
    else
      var t := txs[|txs| - 1];
      DateMatched(b, txs[..|txs| - 1]) + (if DateClose(b.date, t.date) then [t] else [])
  }

  /** `similarAmountGLs` holds exactly the entries within 1%. */
  lemma {:induction false} SimilarAmountMembers(b: Txn, gl: seq<Txn>)
    ensures forall t :: t in SimilarAmount(b, gl) <==> t in gl && WithinTolerance(b.amount, t.amount)
  {
    if gl != [] {
      SimilarAmountMembers(b, gl[..|gl| - 1]);
      assert gl == gl[..|gl| - 1] + [gl[|gl| - 1]];
    }
  }

  /** `dateMatchedGLs` holds exactly the entries within five days. */
  lemma {:induction false} DateMatchedMembers(b: Txn, txs: seq<Txn>)
    ensures forall t :: t in DateMatched(b, txs) <==> t in txs && DateClose(b.date, t.date)
  {
    if txs != [] {
      DateMatchedMembers(b, txs[..|txs| - 1]);
      assert txs == txs[..|txs| - 1] + [txs[|txs| - 1]];
    }
  }

  /** `candidateGLs`: the date matches when there are any, else all amount matches. */
  function Candidates(b: Txn, similar: seq<Txn>): seq<Txn>
  {
    var dated := DateMatched(b, similar);
    if |dated| > 0 then dated else similar
  }

  /** The entry a hit names, when its position lies in the searched list. */
  predicate Names(h: Hit, ugl: seq<Txn>)
  {
    0 <= h.refIndex < |ugl|
  }

  /**
   * `candidateResults`: the hits whose entry has the id of some candidate,
   * in the order the search returned them.
   */
  function CandidateHits(hits: seq<Hit>, ugl: seq<Txn>, cands: seq<Txn>): (r: seq<Hit>)
    ensures |r| <= |hits|
    ensures forall i :: 0 <= i < |r| ==> Names(r[i], ugl) && ugl[r[i].refIndex].id in Ids(cands)
  {
    if hits == [] then []
    else
      var h := hits[|hits| - 1];
      CandidateHits(hits[..|hits| - 1], ugl, cands)
        + (if Names(h, ugl) && ugl[h.refIndex].id in Ids(cands) then [h] else [])
  }

  /** `candidateResults` holds exactly the hits that name an entry with a candidate's id. */
  lemma {:induction false} CandidateHitsMembers(hits: seq<Hit>, ugl: seq<Txn>, cands: seq<Txn>)
    ensures forall h :: h in CandidateHits(hits, ugl, cands) <==>
              h in hits && Names(h, ugl) && ugl[h.refIndex].id in Ids(cands)
  {
    if hits != [] {
      CandidateHitsMembers(hits[..|hits| - 1], ugl, cands);
      assert hits == hits[..|hits| - 1] + [hits[|hits| - 1]];
    }
  }

  /** The sort key `(score || 1)`: a missing score and a perfect score of 0 both rank as 1. */
  function SortKey(h: Hit): real
  {
    if h.score.None? || h.score.value == 0.0 then 1.0 else h.score.value
  }

  /**
   * `candidateResults[0]` after the stable sort by `SortKey`: the position
   * of the first hit with the least key.
   */
  function Best(hits: seq<Hit>): (k: nat)
    requires |hits| > 0
    ensures k < |hits|
    ensures forall j :: 0 <= j < |hits| ==> SortKey(hits[k]) <= SortKey(hits[j])
    ensures forall j :: 0 <= j < k ==> SortKey(hits[j]) > SortKey(hits[k])
  {
    if |hits| == 1 then 0
    else
      var k := Best(hits[..|hits| - 1]);
      if SortKey(hits[|hits| - 1]) < SortKey(hits[k]) then |hits| - 1 else k
  }

  /**
   * The GL entry proposed for one bank entry, if any: the best-ranked search
   * hit among the candidates.
   */
  function Choice(b: Txn, ugl: seq<Txn>, search: Search): Option<Txn>
  {
    var similar := SimilarAmount(b, ugl);
    if |similar| == 0 then None
    else
      var hits := CandidateHits(search(b.description, ugl), ugl, Candidates(b, similar));
      if |hits| == 0 then None
      else
        Some(ugl[hits[Best(hits)].refIndex])
  }

  /** The group proposed for a bank entry and its chosen GL entry. */
  function FuzzyGroup(b: Txn, t: Txn, id: string, now: string): MatchGroup
  {
    MatchGroup(id, [b.id], [t.id], Auto, now, now, None, b.amount, t.amount, Balanced(b.amount, t.amount))
  }

  /** What is chosen for each of the unmatched bank entries, position by position. */
  function Choices(ub: seq<Txn>, ugl: seq<Txn>, search: Search): (cs: seq<Option<Txn>>)
    ensures |cs| == |ub|
  {
    seq(|ub|, i requires 0 <= i < |ub| => Choice(ub[i], ugl, search))
  }

  /**
   * The loop over the unmatched bank entries, given what is chosen for each:
   * the k-th group of the call gets id `newId(k)`.
   */
  function Proposals(ub: seq<Txn>, cs: seq<Option<Txn>>, newId: nat -> string, now: string): seq<MatchGroup>
    requires |cs| == |ub|
  {
    if ub == [] then []
    else
      var prev := Proposals(ub[..|ub| - 1], cs[..|cs| - 1], newId, now);
      match cs[|cs| - 1]
      case None => prev
      case Some(t) => prev + [FuzzyGroup(ub[|ub| - 1], t, newId(|prev|), now)]
  }

  /** The groups `findPotentialMatches` returns. */
  function PotentialMatches(bank: seq<Txn>, gl: seq<Txn>, search: Search, newId: nat -> string, now: string): seq<MatchGroup>
  {
    var ub := WithStatus(bank, Unmatched);
    var ugl := WithStatus(gl, Unmatched);
    if |ub| == 0 || |ugl| == 0 then [] else Proposals(ub, Choices(ub, ugl, search), newId, now)
  }

  // ---------------------------------------------------------------------
  // The engine's procedure
  // ---------------------------------------------------------------------

  /** The scan for the best-ranked hit. */
  method PickBest(hits: seq<Hit>) returns (k: nat)
    requires |hits| > 0
    ensures k == Best(hits)
  {
    k := 0;
    var i := 1;
    assert hits[..1] == [hits[0]];
    while i < |hits|
      invariant 1 <= i <= |hits|
      invariant k == Best(hits[..i])
    {
      assert hits[..i + 1][..i] == hits[..i];
      if SortKey(hits[i]) < SortKey(hits[k]) {
        k := i;
      }
      i := i + 1;
    }
    assert hits[..|hits|] == hits;
  }

  /** The selection for one bank entry, as the loop body performs it. */
  method ChooseFor(b: Txn, ugl: seq<Txn>, search: Search) returns (r: Option<Txn>)
    ensures r == Choice(b, ugl, search)
  {
    var similar := SimilarAmount(b, ugl);
    if |similar| == 0 {
      return None;
    }
    var dated := DateMatched(b, similar);
    var cands := if |dated| > 0 then dated else similar;
    var results := search(b.description, ugl);
    var hits := CandidateHits(results, ugl, cands);
    if |hits| == 0 {
      return None;
    }
    var k := PickBest(hits);
    r := Some(ugl[hits[k].refIndex]);
  }

  /** One more bank entry extends the proposals by its own proposal, if any. */
  lemma ProposalsNext(ub: seq<Txn>, cs: seq<Option<Txn>>, i: nat, newId: nat -> string, now: string)
    requires |cs| == |ub| && i < |ub|
    ensures var prev := Proposals(ub[..i], cs[..i], newId, now);
            Proposals(ub[..i + 1], cs[..i + 1], newId, now)
              == if cs[i].Some? then prev + [FuzzyGroup(ub[i], cs[i].value, newId(|prev|), now)] else prev
  {
    assert ub[..i + 1][..i] == ub[..i];
    assert cs[..i + 1][..i] == cs[..i];
  }

  /** `findPotentialMatches`, with the loop over the unmatched bank entries. */
  method FindPotentialMatches(bank: seq<Txn>, gl: seq<Txn>, search: Search, newId: nat -> string, now: string)
    returns (groups: seq<MatchGroup>)
    ensures groups == PotentialMatches(bank, gl, search, newId, now)
  {
    var ub := WithStatus(bank, Unmatched);
    var ugl := WithStatus(gl, Unmatched);
    if |ub| == 0 || |ugl| == 0 {
      return [];
    }
    ghost var cs := Choices(ub, ugl, search);
    groups := [];
    var i := 0;
    while i < |ub|
      invariant 0 <= i <= |ub|
      invariant groups == Proposals(ub[..i], cs[..i], newId, now)
    {
      var b := ub[i];
      var choice := ChooseFor(b, ugl, search);
      assert choice == cs[i];
      ProposalsNext(ub, cs, i, newId, now);
      if choice.Some? {
        groups := groups + [FuzzyGroup(b, choice.value, newId(|groups|), now)];
      }
      i := i + 1;
    }
    assert ub[..|ub|] == ub && cs[..|cs|] == cs;
  }

  // ---------------------------------------------------------------------
  // What the matcher promises
  // ---------------------------------------------------------------------

  /** A hit that names an entry with the id of one of the bank entry's candidates. */
  predicate CandidateHit(h: Hit, b: Txn, ugl: seq<Txn>)
  {
    Names(h, ugl) && ugl[h.refIndex].id in Ids(Candidates(b, SimilarAmount(b, ugl)))
  }

  /** A bank entry gets a proposal exactly when some search hit names one of its candidates. */
  lemma ChoiceExists(b: Txn, ugl: seq<Txn>, search: Search)
    ensures Choice(b, ugl, search).Some? <==>
              exists h :: h in search(b.description, ugl) && CandidateHit(h, b, ugl)
  {
    var similar := SimilarAmount(b, ugl);
    var cands := Candidates(b, similar);
    var results := search(b.description, ugl);
    var hits := CandidateHits(results, ugl, cands);
    CandidateHitsMembers(results, ugl, cands);
    if exists h :: h in results && CandidateHit(h, b, ugl) {
      var h :| h in results && CandidateHit(h, b, ugl);
      assert h in hits;
    }
    if Choice(b, ugl, search).Some? {
      assert hits[0] in hits;
    }
  }

  /**
   * The proposed entry is one of the bank entry's candidates: an entry of
   * the searched list within 1% of the amount, and dated within five days
   * whenever any entry within 1% is.
   */
  lemma ChoiceIsCandidate(b: Txn, ugl: seq<Txn>, search: Search)
    requires UniqueIds(ugl)
    ensures Choice(b, ugl, search).Some? ==>
              var t := Choice(b, ugl, search).value;
              && t in Candidates(b, SimilarAmount(b, ugl))
              && t in ugl
              && WithinTolerance(b.amount, t.amount)
              && ((exists u :: u in ugl && WithinTolerance(b.amount, u.amount) && DateClose(b.date, u.date))
                  ==> DateClose(b.date, t.date))
  {
    var similar := SimilarAmount(b, ugl);
    var dated := DateMatched(b, similar);
    var cands := Candidates(b, similar);
    var hits := CandidateHits(search(b.description, ugl), ugl, cands);
    if Choice(b, ugl, search).Some? {
      var h := hits[Best(hits)];
      var t := ugl[h.refIndex];
      var j :| 0 <= j < |cands| && Ids(cands)[j] == t.id;
      var c := cands[j];
      SimilarAmountMembers(b, ugl);
      DateMatchedMembers(b, similar);
      assert c in similar && c in ugl;
      var ic :| 0 <= ic < |ugl| && ugl[ic] == c;
      assert c == t;
      if exists u :: u in ugl && WithinTolerance(b.amount, u.amount) && DateClose(b.date, u.date) {
        var u :| u in ugl && WithinTolerance(b.amount, u.amount) && DateClose(b.date, u.date);
        assert u in dated;
      }
    }
  }

  /**
   * The proposed entry is named by a candidate search hit whose key no
   * other candidate hit beats.
   */
  lemma ChoiceIsBestRanked(b: Txn, ugl: seq<Txn>, search: Search)
    ensures Choice(b, ugl, search).Some? ==>
              exists i :: 0 <= i < |search(b.description, ugl)| &&
                var h := search(b.description, ugl)[i];
                && CandidateHit(h, b, ugl)
                && ugl[h.refIndex] == Choice(b, ugl, search).value
                && forall j :: 0 <= j < |search(b.description, ugl)| && CandidateHit(search(b.description, ugl)[j], b, ugl) ==>
                     SortKey(h) <= SortKey(search(b.description, ugl)[j])
  {
    var results := search(b.description, ugl);
    var cands := Candidates(b, SimilarAmount(b, ugl));
    var hits := CandidateHits(results, ugl, cands);
    if Choice(b, ugl, search).Some? {
      CandidateHitsMembers(results, ugl, cands);
      var h := hits[Best(hits)];
      assert h in hits;
      var i :| 0 <= i < |results| && results[i] == h;
      forall j | 0 <= j < |results| && CandidateHit(results[j], b, ugl)
        ensures SortKey(h) <= SortKey(results[j])
      {
        assert results[j] in hits;
        var m :| 0 <= m < |hits| && hits[m] == results[j];
      }
    }
  }

  /** The positions that get a proposal, in increasing order. */
  function Proposed(cs: seq<Option<Txn>>): (p: seq<nat>)
    ensures |p| <= |cs|
    ensures forall k :: 0 <= k < |p| ==> p[k] < |cs| && cs[p[k]].Some?
    ensures forall m, n :: 0 <= m < n < |p| ==> p[m] < p[n]
    ensures forall i :: 0 <= i < |cs| && cs[i].Some? ==> i in p
  {
    if cs == [] then []
    else
      var p := Proposed(cs[..|cs| - 1]);
      p + (if cs[|cs| - 1].Some? then [|cs| - 1] else [])
  }

  /**
   * The k-th proposal is that of the k-th proposing position: its bank
   * entry, its choice, and the k-th fresh id.
   */
  lemma {:induction false} ProposalsIndexed(ub: seq<Txn>, cs: seq<Option<Txn>>, newId: nat -> string, now: string)
    requires |cs| == |ub|
    ensures var gs := Proposals(ub, cs, newId, now);
            var p := Proposed(cs);
            && |gs| == |p|
            && forall k :: 0 <= k < |gs| ==> gs[k] == FuzzyGroup(ub[p[k]], cs[p[k]].value, newId(k), now)
  {
    if ub != [] {
      var n := |ub| - 1;
      ProposalsIndexed(ub[..n], cs[..n], newId, now);
      var prev := Proposals(ub[..n], cs[..n], newId, now);
      var gs := Proposals(ub, cs, newId, now);
      var p := Proposed(cs);
      assert p[..|prev|] == Proposed(cs[..n]);
      forall k | 0 <= k < |prev| ensures gs[k] == FuzzyGroup(ub[p[k]], cs[p[k]].value, newId(k), now) {
        assert gs[k] == prev[k];
        assert p[k] == Proposed(cs[..n])[k];
      }
    }
  }

  /** Amounts within tolerance have a non-zero bank side, and balance exactly when they are equal. */
  lemma ToleranceFacts(bankAmount: int, glAmount: int)
    requires WithinTolerance(bankAmount, glAmount)
    ensures bankAmount != 0
    ensures Balanced(bankAmount, glAmount) <==> bankAmount == glAmount
  {
  }

  /** A proposal pairs an unmatched bank entry with an unmatched GL entry within tolerance. */
  lemma ProposalFromUnmatched(bank: seq<Txn>, gl: seq<Txn>, search: Search, b: Txn, t: Txn)
    requires UniqueIds(gl)
    requires b in WithStatus(bank, Unmatched)
    requires Choice(b, WithStatus(gl, Unmatched), search) == Some(t)
    ensures b in bank && b.matchStatus == Unmatched
    ensures t in gl && t.matchStatus == Unmatched && WithinTolerance(b.amount, t.amount)
  {
    WithStatusUnique(gl, Unmatched);
    WithStatusMembers(bank, Unmatched);
    WithStatusMembers(gl, Unmatched);
    ChoiceIsCandidate(b, WithStatus(gl, Unmatched), search);
  }

  /**
   * Every proposed group is 1:1 and auto: an unmatched bank entry against an
   * unmatched GL entry within 1% of its amount (so never a zero bank
   * amount), balanced exactly when the two amounts agree to the cent.
   */
  lemma PotentialGroupsShape(bank: seq<Txn>, gl: seq<Txn>, search: Search, newId: nat -> string, now: string)
    requires UniqueIds(gl)
    ensures var gs := PotentialMatches(bank, gl, search, newId, now);
            forall k :: 0 <= k < |gs| ==>
              && gs[k].status == Auto
              && |gs[k].bankTransactionIds| == 1 && |gs[k].glTransactionIds| == 1
              && gs[k].id == newId(k)
              && (exists b :: b in bank && b.matchStatus == Unmatched &&
                    b.id == gs[k].bankTransactionIds[0] && b.amount == gs[k].bankTotal)
              && (exists t :: t in gl && t.matchStatus == Unmatched &&
                    t.id == gs[k].glTransactionIds[0] && t.amount == gs[k].glTotal)
              && WithinTolerance(gs[k].bankTotal, gs[k].glTotal)
              && gs[k].bankTotal != 0
              && (gs[k].isBalanced <==> gs[k].bankTotal == gs[k].glTotal)
  {
    var ub := WithStatus(bank, Unmatched);
    var ugl := WithStatus(gl, Unmatched);
    WithStatusUnique(gl, Unmatched);
    WithStatusMembers(bank, Unmatched);
    WithStatusMembers(gl, Unmatched);
    if |ub| != 0 && |ugl| != 0 {
      var cs := Choices(ub, ugl, search);
      ProposalsIndexed(ub, cs, newId, now);
      var gs := Proposals(ub, cs, newId, now);
      var p := Proposed(cs);
      forall k | 0 <= k < |gs|
        ensures && (exists b :: b in bank && b.matchStatus == Unmatched &&
                      b.id == gs[k].bankTransactionIds[0] && b.amount == gs[k].bankTotal)
                && (exists t :: t in gl && t.matchStatus == Unmatched &&
                      t.id == gs[k].glTransactionIds[0] && t.amount == gs[k].glTotal)
                && WithinTolerance(gs[k].bankTotal, gs[k].glTotal)
                && gs[k].bankTotal != 0
                && (gs[k].isBalanced <==> gs[k].bankTotal == gs[k].glTotal)
      {
        var i := p[k];
        assert cs[i] == Choice(ub[i], ugl, search);
        ProposalFromUnmatched(bank, gl, search, ub[i], cs[i].value);
        ToleranceFacts(gs[k].bankTotal, gs[k].glTotal);
      }
    }
  }

  /**
   * Every unmatched bank entry that has a choice gets exactly one proposal:
   * with distinct bank ids, no two groups share a bank entry, and a bank
   * entry with a choice is in some group.
   */
  lemma PotentialOnePerBankEntry(bank: seq<Txn>, gl: seq<Txn>, search: Search, newId: nat -> string, now: string)
    requires UniqueIds(bank)
    ensures var gs := PotentialMatches(bank, gl, search, newId, now);
            forall m, n :: 0 <= m < n < |gs| ==> gs[m].bankTransactionIds != gs[n].bankTransactionIds
    ensures var gs := PotentialMatches(bank, gl, search, newId, now);
            var ugl := WithStatus(gl, Unmatched);
            forall b :: b in bank && b.matchStatus == Unmatched && Choice(b, ugl, search).Some? ==>
              exists k :: 0 <= k < |gs| && gs[k].bankTransactionIds == [b.id]
  {
    PotentialBankIdsDistinct(bank, gl, search, newId, now);
    PotentialCoversChoices(bank, gl, search, newId, now);
  }

  /** With distinct bank ids, no two proposals share a bank entry. */
  lemma PotentialBankIdsDistinct(bank: seq<Txn>, gl: seq<Txn>, search: Search, newId: nat -> string, now: string)
    requires UniqueIds(bank)
    ensures var gs := PotentialMatches(bank, gl, search, newId, now);
            forall m, n :: 0 <= m < n < |gs| ==> gs[m].bankTransactionIds != gs[n].bankTransactionIds
  {
    var ub := WithStatus(bank, Unmatched);
    var ugl := WithStatus(gl, Unmatched);
    WithStatusUnique(bank, Unmatched);
    var cs := Choices(ub, ugl, search);
    var p := Proposed(cs);
    if |ub| != 0 && |ugl| != 0 {
      ProposalsIndexed(ub, cs, newId, now);
    }
    var gs := PotentialMatches(bank, gl, search, newId, now);
    forall m, n | 0 <= m < n < |gs| ensures gs[m].bankTransactionIds != gs[n].bankTransactionIds {
      assert ub[p[m]].id != ub[p[n]].id;
    }
  }

  /** Every unmatched bank entry that has a choice is the bank entry of some proposal. */
  lemma PotentialCoversChoices(bank: seq<Txn>, gl: seq<Txn>, search: Search, newId: nat -> string, now: string)
    ensures var gs := PotentialMatches(bank, gl, search, newId, now);
            var ugl := WithStatus(gl, Unmatched);
            forall b :: b in bank && b.matchStatus == Unmatched && Choice(b, ugl, search).Some? ==>
              exists k :: 0 <= k < |gs| && gs[k].bankTransactionIds == [b.id]
  {
    var ub := WithStatus(bank, Unmatched);
    var ugl := WithStatus(gl, Unmatched);
    WithStatusMembers(bank, Unmatched);
    var cs := Choices(ub, ugl, search);
    var p := Proposed(cs);
    if |ub| != 0 && |ugl| != 0 {
      ProposalsIndexed(ub, cs, newId, now);
    }
    var gs := PotentialMatches(bank, gl, search, newId, now);
    forall b | b in bank && b.matchStatus == Unmatched && Choice(b, ugl, search).Some?
      ensures exists k :: 0 <= k < |gs| && gs[k].bankTransactionIds == [b.id]
    {
      assert b in ub;
      var i :| 0 <= i < |ub| && ub[i] == b;
      assert cs[i].Some?;
      var k :| 0 <= k < |p| && p[k] == i;
      if |ugl| == 0 {
        SimilarAmountMembers(b, ugl);
      }
      assert gs[k].bankTransactionIds == [b.id];
    }
  }

  /** With no unmatched bank entry or no unmatched GL entry, nothing is proposed. */
  lemma PotentialMatchesEmpty(bank: seq<Txn>, gl: seq<Txn>, search: Search, newId: nat -> string, now: string)
    requires (forall i :: 0 <= i < |bank| ==> bank[i].matchStatus != Unmatched) ||
             (forall i :: 0 <= i < |gl| ==> gl[i].matchStatus != Unmatched)
    ensures PotentialMatches(bank, gl, search, newId, now) == []
  {
    if forall i :: 0 <= i < |bank| ==> bank[i].matchStatus != Unmatched {
      NoneWithStatus(bank, Unmatched);
    } else {
      NoneWithStatus(gl, Unmatched);
    }
  }

  // ---------------------------------------------------------------------
  // Worked cases
  // ---------------------------------------------------------------------

  /** A search that ranks the first entry of the list, with a middling score. */
  function FirstEntrySearch(description: string, ugl: seq<Txn>): seq<Hit>
  {
    [Hit(0, Some(0.25))]
  }

  /** Against a one-entry list, the first-entry search picks that entry when it is within 1%. */
  lemma SoleEntryChosen(b: Txn, g: Txn)
    requires WithinTolerance(b.amount, g.amount)
    ensures Choice(b, [g], FirstEntrySearch) == Some(g)
  {
    var gl := [g];
    assert gl[..0] == [];
    var similar := SimilarAmount(b, gl);
    assert similar == gl;
    var cands := Candidates(b, similar);
    assert cands == gl by {
      assert DateMatched(b, gl) == if DateClose(b.date, g.date) then gl else [];
    }
    assert Ids(gl) == [g.id];
    var h := Hit(0, Some(0.25));
    var hs := [h];
    assert FirstEntrySearch(b.description, gl) == hs;
    assert hs[..0] == [];
    assert Names(h, gl) && gl[h.refIndex].id in Ids(cands);
    var hits := CandidateHits(hs, gl, cands);
    assert hits == CandidateHits([], gl, cands) + [h];
    assert Best(hits) == 0;
  }

  /**
   * GL entries are not consumed: two unmatched bank entries within 1% of
   * the one unmatched GL entry both propose it.
   */
  lemma SameGLEntryProposedTwice(b1: Txn, b2: Txn, g: Txn, newId: nat -> string, now: string)
    requires b1.matchStatus == Unmatched && b2.matchStatus == Unmatched && g.matchStatus == Unmatched
    requires WithinTolerance(b1.amount, g.amount) && WithinTolerance(b2.amount, g.amount)
    ensures PotentialMatches([b1, b2], [g], FirstEntrySearch, newId, now)
              == [FuzzyGroup(b1, g, newId(0), now), FuzzyGroup(b2, g, newId(1), now)]
  {
    PairChoices(b1, b2, g);
    BothProposed([b1, b2], g, newId, now);
  }

  lemma PairChoices(b1: Txn, b2: Txn, g: Txn)
    requires b1.matchStatus == Unmatched && b2.matchStatus == Unmatched && g.matchStatus == Unmatched
    requires WithinTolerance(b1.amount, g.amount) && WithinTolerance(b2.amount, g.amount)
    ensures WithStatus([b1, b2], Unmatched) == [b1, b2] && WithStatus([g], Unmatched) == [g]
    ensures Choices([b1, b2], [g], FirstEntrySearch) == [Some(g), Some(g)]
  {
    PairFiltered(b1, b2, g);
    SoleEntryChosen(b1, g);
    SoleEntryChosen(b2, g);
  }

  lemma PairFiltered(b1: Txn, b2: Txn, g: Txn)
    requires b1.matchStatus == Unmatched && b2.matchStatus == Unmatched && g.matchStatus == Unmatched
    ensures WithStatus([b1, b2], Unmatched) == [b1, b2] && WithStatus([g], Unmatched) == [g]
  {
    assert [b1, b2][..1] == [b1] && [b1][..0] == [] && [g][..0] == [];
  }

  lemma BothProposed(ub: seq<Txn>, t: Txn, newId: nat -> string, now: string)
    requires |ub| == 2
    ensures Proposals(ub, [Some(t), Some(t)], newId, now)
              == [FuzzyGroup(ub[0], t, newId(0), now), FuzzyGroup(ub[1], t, newId(1), now)]
  {
    var cs := [Some(t), Some(t)];
    assert ub[..1][..0] == [] && cs[..1][..0] == [];
    assert Proposals(ub[..1], cs[..1], newId, now) == [FuzzyGroup(ub[0], t, newId(0), now)];
  }

  /**
   * The sort key treats a perfect score of 0 like no score at all: a hit
   * scored 0 ranks behind a hit scored 0.5 that comes before it.
   */
  lemma PerfectScoreRanksAsOne()
    ensures Best([Hit(0, Some(0.5)), Hit(1, Some(0.0))]) == 0
    ensures Best([Hit(1, Some(0.0)), Hit(0, Some(0.5))]) == 1
  {
    assert [Hit(0, Some(0.5)), Hit(1, Some(0.0))][..1] == [Hit(0, Some(0.5))];
    assert [Hit(1, Some(0.0)), Hit(0, Some(0.5))][..1] == [Hit(1, Some(0.0))];
  }
}
