/**
 * The reconciliation store: the single object holding the current project,
 * the two transaction lists and the match groups, with one method per
 * action the screens dispatch. Each action replaces whole lists, so the
 * lists are `seq` fields the methods reassign.
 *
 * What the actions cannot compute themselves is passed in: `now` is the
 * timestamp of the call, `newId` the fresh group id, `exactIds` and
 * `fuzzyIds` the ids the two matchers give their k-th group, and `search`
 * the fuzzy-search oracle.
 */
module Store {
  import opened Types
  import opened MatchApplier
  import ExactMatcher
  import FuzzyMatcher
  import Stats

  /** The screen the user is on. */
  datatype View = UploadView | MapView | MatchView | ReviewView

  /** `findIndex(g => g.id === id)`: the first group carrying the id, or -1 (`FindTxn`'s search, on groups). */
  function GroupIndex(groups: seq<MatchGroup>, id: string): (r: int)
    ensures -1 <= r < |groups|
    ensures r >= 0 ==> groups[r].id == id && forall k :: 0 <= k < r ==> groups[k].id != id
    ensures r < 0 <==> forall k :: 0 <= k < |groups| ==> groups[k].id != id
  {
    if groups == [] then -1
    else if groups[0].id == id then 0
    else
      var r := GroupIndex(groups[1..], id);
      if r < 0 then -1 else r + 1
  }

  /**
   * `ids.reduce((sum, id) => sum + (txs.find(t => t.id === id)?.amount || 0), 0)`:
   * the amounts of the first entries carrying the ids; an unknown id adds nothing.
   */
  function TotalOf(ids: seq<string>, txs: seq<Txn>): int
  {
    if ids == [] then 0
    else
      var k := FindTxn(txs, ids[|ids| - 1]);
      TotalOf(ids[..|ids| - 1], txs) + (if k < 0 then 0 else txs[k].amount)
  }

  lemma {:induction false} TotalOfPrefix(pre: seq<Txn>, txs: seq<Txn>)
    requires UniqueIds(txs) && |pre| <= |txs| && txs[..|pre|] == pre
    ensures TotalOf(Ids(pre), txs) == Sum(pre)
  {
    if pre != [] {
      var n := |pre|;
      var init := pre[..n - 1];
      assert txs[..n - 1] == init;
      TotalOfPrefix(init, txs);
      assert Ids(pre)[..n - 1] == Ids(init);
      assert txs[n - 1] == pre[n - 1];
      var k := FindTxn(txs, pre[n - 1].id);
      assert k == n - 1;
    }
  }

  /** Naming every entry of a list with distinct ids totals the whole list. */
  lemma TotalOfIds(txs: seq<Txn>)
    requires UniqueIds(txs)
    ensures TotalOf(Ids(txs), txs) == Sum(txs)
  {
    assert txs[..|txs|] == txs;
    TotalOfPrefix(txs, txs);
  }

  /** Ids the list does not hold add nothing to a total. */
  lemma {:induction false} TotalOfUnknown(ids: seq<string>, txs: seq<Txn>)
    requires forall i, k :: 0 <= i < |ids| && 0 <= k < |txs| ==> txs[k].id != ids[i]
    ensures TotalOf(ids, txs) == 0
  {
    if ids != [] {
      TotalOfUnknown(ids[..|ids| - 1], txs);
    }
  }

  /** The group `createMatchGroup` builds: manual, with totals looked up in the current lists. */
  function ManualGroup(id: string, bankIds: seq<string>, glIds: seq<string>,
                       bank: seq<Txn>, gl: seq<Txn>, now: string): MatchGroup
  {
    var bankTotal := TotalOf(bankIds, bank);
    var glTotal := TotalOf(glIds, gl);
    MatchGroup(id, bankIds, glIds, Manual, now, now, None, bankTotal, glTotal, Balanced(bankTotal, glTotal))
  }

  /** The group `updateMatchGroup` makes of `g`: same id, creation time and notes, new members and totals. */
  function Reassigned(g: MatchGroup, bankIds: seq<string>, glIds: seq<string>,
                      bank: seq<Txn>, gl: seq<Txn>, now: string): MatchGroup
  {
    var bankTotal := TotalOf(bankIds, bank);
    var glTotal := TotalOf(glIds, gl);
    g.(bankTransactionIds := bankIds, glTransactionIds := glIds, status := Manual, updatedAt := now,
       bankTotal := bankTotal, glTotal := glTotal, isBalanced := Balanced(bankTotal, glTotal))
  }

  /** A transaction taken out of its group. */
  function Unlinked(tx: Txn): Txn
  {
    tx.(matchStatus := Unmatched, matchGroup := None)
  }

  /** The `map` that unlinks every transaction whose id is in `ids`. */
  function ResetMembers(txs: seq<Txn>, ids: seq<string>): seq<Txn>
  {
    seq(|txs|, i requires 0 <= i < |txs| => if txs[i].id in ids then Unlinked(txs[i]) else txs[i])
  }

  /** `groups.filter(g => g.id !== id)`: every group carrying the id goes, the rest keep their order. */
  function RemoveGroup(groups: seq<MatchGroup>, id: string): (r: seq<MatchGroup>)
    ensures |r| <= |groups|
  {
    if groups == [] then []
    else
      var last := groups[|groups| - 1];
      RemoveGroup(groups[..|groups| - 1], id) + (if last.id != id then [last] else [])
  }

  /** The remaining groups are exactly those without the id; an absent id removes nothing. */
  lemma {:induction false} RemoveGroupMembers(groups: seq<MatchGroup>, id: string)
    ensures forall g :: g in RemoveGroup(groups, id) <==> g in groups && g.id != id
    ensures (forall k :: 0 <= k < |groups| ==> groups[k].id != id) ==> RemoveGroup(groups, id) == groups
  {
    if groups != [] {
      var init, last := groups[..|groups| - 1], groups[|groups| - 1];
      assert groups == init + [last];
      RemoveGroupMembers(init, id);
      var tail := if last.id != id then [last] else [];
      assert RemoveGroup(groups, id) == RemoveGroup(init, id) + tail;
      forall g
        ensures g in RemoveGroup(groups, id) <==> g in groups && g.id != id
      {
        assert g in groups <==> g in init || g == last;
      }
    }
  }

  /** Each group without the id is kept as many times as it occurs; a group with the id is kept none. */
  lemma {:induction false} RemoveGroupCount(groups: seq<MatchGroup>, id: string, g: MatchGroup)
    ensures multiset(RemoveGroup(groups, id))[g] == if g.id == id then 0 else multiset(groups)[g]
  {
    if groups != [] {
      var init, last := groups[..|groups| - 1], groups[|groups| - 1];
      assert groups == init + [last];
      assert multiset(groups) == multiset(init) + multiset{last};
      RemoveGroupCount(init, id, g);
      var tail := if last.id != id then [last] else [];
      assert multiset(RemoveGroup(groups, id)) == multiset(RemoveGroup(init, id)) + multiset(tail);
    }
  }

  /**
   * The kept groups stay in their order: removing from any prefix of the
   * list gives a prefix of the result.
   */
  lemma {:induction false} RemoveGroupKeepsOrder(groups: seq<MatchGroup>, id: string, k: nat)
    requires k <= |groups|
    ensures RemoveGroup(groups[..k], id) <= RemoveGroup(groups, id)
  {
    if k == |groups| {
      assert groups[..k] == groups;
    } else {
      var init := groups[..|groups| - 1];
      RemoveGroupKeepsOrder(init, id, k);
      assert init[..k] == groups[..k];
      var a, b, c := RemoveGroup(groups[..k], id), RemoveGroup(init, id), RemoveGroup(groups, id);
      assert b <= c;
      assert a == b[..|a|] && b[..|a|] == c[..|a|];
    }
  }

  /** `filter(tx => tx.matchStatus === 'matched' || tx.matchStatus === 'potential')`. */
  function Reviewed(txs: seq<Txn>): (r: seq<Txn>)
    ensures |r| <= |txs|
    ensures forall i :: 0 <= i < |r| ==> r[i].matchStatus != Unmatched
  {
    if txs == [] then []
    else
      var last := txs[|txs| - 1];
      Reviewed(txs[..|txs| - 1]) + (if last.matchStatus != Unmatched then [last] else [])
  }

  /** The reviewed entries are all the entries but the unmatched ones. */
  lemma {:induction false} ReviewedCount(txs: seq<Txn>)
    ensures |Reviewed(txs)| + |WithStatus(txs, Unmatched)| == |txs|
  {
    if txs != [] {
      ReviewedCount(txs[..|txs| - 1]);
    }
  }

  /** The project summary after an action that recounts the matched bank entries. */
  function Recounted(p: Option<Project>, count: nat, total: nat, now: string): Option<Project>
    requires count <= total
  {
    if p.None? then None
    else Some(p.value.(matchedTransactionCount := count, matchRate := Rate(count, total), lastActivity := Some(now)))
  }

  // ---------------------------------------------------------------------
  // Properties of the pieces the actions are built from
  // ---------------------------------------------------------------------

  /** Unlinking keeps the ids, so it keeps them distinct. */
  lemma ResetMembersUnique(txs: seq<Txn>, ids: seq<string>)
    requires UniqueIds(txs)
    ensures UniqueIds(ResetMembers(txs, ids))
  {
    var r := ResetMembers(txs, ids);
    forall i, j | 0 <= i < |r| && 0 <= j < |r| && i != j ensures r[i].id != r[j].id {
      assert r[i].id == txs[i].id && r[j].id == txs[j].id;
    }
  }

  /**
   * Rejecting a group just created restores the lists: when every entry the
   * group names was unmatched and in no group, unlinking its members after
   * applying it gives back the list as it was.
   */
  lemma ResetUndoesApply(txs: seq<Txn>, g: MatchGroup, side: Side)
    requires UniqueIds(txs)
    requires forall i :: 0 <= i < |txs| && txs[i].id in Members(g, side) ==>
               txs[i].matchStatus == Unmatched && txs[i].matchGroup == None
    ensures ResetMembers(Applied(txs, [g], side), Members(g, side)) == txs
  {
    AppliedOneGroup(txs, g, side);
  }

  /**
   * Reassigning a group: on a list with distinct ids, an entry the new group
   * names joins it, an entry only the old group named is unlinked, and every
   * other entry is kept.
   */
  lemma ReassignOutcome(txs: seq<Txn>, oldIds: seq<string>, g: MatchGroup, side: Side)
    requires UniqueIds(txs)
    ensures var r := Applied(ResetMembers(txs, oldIds), [g], side);
            && |r| == |txs|
            && forall i :: 0 <= i < |txs| ==>
                 r[i] == if txs[i].id in Members(g, side) then Mark(txs[i], g)
                         else if txs[i].id in oldIds then Unlinked(txs[i])
                         else txs[i]
  {
    ResetMembersUnique(txs, oldIds);
    AppliedOneGroup(ResetMembers(txs, oldIds), g, side);
  }

  /**
   * Applying a new manual group: on a list with distinct ids, exactly the
   * entries the group names become its potential members; the rest are kept.
   */
  lemma ManualGroupOutcome(id: string, bankIds: seq<string>, glIds: seq<string>,
                           bank: seq<Txn>, gl: seq<Txn>, now: string, txs: seq<Txn>, side: Side)
    requires UniqueIds(txs)
    ensures var g := ManualGroup(id, bankIds, glIds, bank, gl, now);
            var r := Applied(txs, [g], side);
            && |r| == |txs|
            && forall i :: 0 <= i < |txs| ==>
                 r[i] == if txs[i].id in (if side == BankSide then bankIds else glIds)
                         then txs[i].(matchStatus := Potential, matchGroup := Some(id))
                         else txs[i]
  {
    AppliedOneGroup(txs, ManualGroup(id, bankIds, glIds, bank, gl, now), side);
  }

  /**
   * Applying a confirmed group: on a list with distinct ids, exactly the
   * entries the group names become matched members of it; the rest are kept.
   */
  lemma ConfirmOutcome(txs: seq<Txn>, g: MatchGroup, now: string, side: Side)
    requires UniqueIds(txs)
    ensures var r := Applied(txs, [g.(status := Confirmed, updatedAt := now)], side);
            && |r| == |txs|
            && forall i :: 0 <= i < |txs| ==>
                 r[i] == if txs[i].id in Members(g, side)
                         then txs[i].(matchStatus := Matched, matchGroup := Some(g.id))
                         else txs[i]
  {
    AppliedOneGroup(txs, g.(status := Confirmed, updatedAt := now), side);
  }

  /** A transaction named by one of the groups is not unmatched once they are applied. */
  lemma NamedNotUnmatched(txs: seq<Txn>, groups: seq<MatchGroup>, side: Side, j: nat, id: string)
    requires UniqueIds(txs) && j < |groups| && id in Members(groups[j], side)
    ensures forall t :: t in Applied(txs, groups, side) && t.id == id ==> t.matchStatus != Unmatched
  {
    AppliedPointwise(txs, groups, side);
    var a := Applied(txs, groups, side);
    forall t | t in a && t.id == id ensures t.matchStatus != Unmatched {
      var i :| 0 <= i < |a| && a[i] == t;
      var k := LastNaming(groups, txs[i].id, side);
      assert a[i].id == txs[i].id;
      assert k >= j;
    }
  }

  /** The exact groups of an automatic run. */
  function ExactPhase(bank: seq<Txn>, gl: seq<Txn>, exactIds: nat -> string, now: string): seq<MatchGroup>
  {
    ExactMatcher.ExactMatches(bank, gl, exactIds, now)
  }

  /** The fuzzy groups of an automatic run: proposed on the lists the exact groups have been applied to. */
  function FuzzyPhase(bank: seq<Txn>, gl: seq<Txn>, exactIds: nat -> string, fuzzyIds: nat -> string,
                      search: FuzzyMatcher.Search, now: string): seq<MatchGroup>
  {
    var exact := ExactPhase(bank, gl, exactIds, now);
    FuzzyMatcher.PotentialMatches(Applied(bank, exact, BankSide), Applied(gl, exact, GLSide), search, fuzzyIds, now)
  }

  /** A single id held by an entry still unmatched after the groups are applied is in none of the groups. */
  lemma UnmatchedNotNamed(txs: seq<Txn>, groups: seq<MatchGroup>, side: Side, m: nat, ids: seq<string>)
    requires UniqueIds(txs) && m < |groups| && |ids| == 1
    requires exists t :: t in Applied(txs, groups, side) && t.matchStatus == Unmatched && t.id == ids[0]
    ensures ExactMatcher.Disjoint(Members(groups[m], side), ids)
  {
    var t :| t in Applied(txs, groups, side) && t.matchStatus == Unmatched && t.id == ids[0];
    if ids[0] in Members(groups[m], side) {
      NamedNotUnmatched(txs, groups, side, m, ids[0]);
    }
  }

  /**
   * An automatic run never proposes a fuzzy group for a transaction an exact
   * group of the same run already took, on either side.
   */
  lemma AutomaticPhasesDisjoint(bank: seq<Txn>, gl: seq<Txn>, exactIds: nat -> string, fuzzyIds: nat -> string,
                                search: FuzzyMatcher.Search, now: string)
    requires UniqueIds(bank) && UniqueIds(gl)
    ensures var exact := ExactPhase(bank, gl, exactIds, now);
            var fuzzy := FuzzyPhase(bank, gl, exactIds, fuzzyIds, search, now);
            forall m, n :: 0 <= m < |exact| && 0 <= n < |fuzzy| ==>
              && ExactMatcher.Disjoint(exact[m].bankTransactionIds, fuzzy[n].bankTransactionIds)
              && ExactMatcher.Disjoint(exact[m].glTransactionIds, fuzzy[n].glTransactionIds)
  {
    var exact := ExactPhase(bank, gl, exactIds, now);
    var bank1 := Applied(bank, exact, BankSide);
    var gl1 := Applied(gl, exact, GLSide);
    var fuzzy := FuzzyPhase(bank, gl, exactIds, fuzzyIds, search, now);
    AppliedUniqueIds(gl, exact, GLSide);
    FuzzyMatcher.PotentialGroupsShape(bank1, gl1, search, fuzzyIds, now);
    forall m, n | 0 <= m < |exact| && 0 <= n < |fuzzy|
      ensures ExactMatcher.Disjoint(exact[m].bankTransactionIds, fuzzy[n].bankTransactionIds)
      ensures ExactMatcher.Disjoint(exact[m].glTransactionIds, fuzzy[n].glTransactionIds)
    {
      UnmatchedNotNamed(bank, exact, BankSide, m, fuzzy[n].bankTransactionIds);
      UnmatchedNotNamed(gl, exact, GLSide, m, fuzzy[n].glTransactionIds);
    }
  }

  // ---------------------------------------------------------------------
  // The store
  // ---------------------------------------------------------------------

  class ReconciliationStore {
    var currentProject: Option<Project>
    var bankTransactions: seq<Txn>
    var glTransactions: seq<Txn>
    var matchGroups: seq<MatchGroup>
    var isLoading: bool
    var activeView: View

    /** The initial state: no project, empty lists, on the upload screen. */
    constructor()
      ensures currentProject == None
      ensures bankTransactions == [] && glTransactions == [] && matchGroups == []
      ensures !isLoading && activeView == UploadView
    {
      currentProject := None;
      bankTransactions := [];
      glTransactions := [];
      matchGroups := [];
      isLoading := false;
      activeView := UploadView;
    }

    method SetCurrentProject(project: Project)
      modifies this
      ensures currentProject == Some(project)
      ensures bankTransactions == old(bankTransactions) && glTransactions == old(glTransactions)
      ensures matchGroups == old(matchGroups)
      ensures isLoading == old(isLoading) && activeView == old(activeView)
    {
      currentProject := Some(project);
    }

    method SetActiveView(view: View)
      modifies this
      ensures activeView == view
      ensures currentProject == old(currentProject)
      ensures bankTransactions == old(bankTransactions) && glTransactions == old(glTransactions)
      ensures matchGroups == old(matchGroups) && isLoading == old(isLoading)
    {
      activeView := view;
    }

    /**
     * Appends an imported bank file. The project, when there is one, counts
     * the file and the new length of the bank list.
     */
    method AddBankTransactions(transactions: seq<Txn>, now: string)
      modifies this
      ensures bankTransactions == old(bankTransactions) + transactions
      ensures currentProject ==
        if old(currentProject).None? then None
        else Some(old(currentProject).value.(bankTransactionCount := |bankTransactions|,
                                             bankFileCount := old(currentProject).value.bankFileCount + 1,
                                             lastActivity := Some(now)))
      ensures currentProject.Some? ==> currentProject.value.bankTransactionCount == |bankTransactions|
      ensures glTransactions == old(glTransactions) && matchGroups == old(matchGroups)
      ensures isLoading == old(isLoading) && activeView == old(activeView)
    {
      var count := |bankTransactions| + |transactions|;
      bankTransactions := bankTransactions + transactions;
      if currentProject.Some? {
        var p := currentProject.value;
        currentProject := Some(p.(bankTransactionCount := count, bankFileCount := p.bankFileCount + 1,
                                  lastActivity := Some(now)));
      }
    }

    /** Appends an imported GL file; the project counts the file and the new GL length. */
    method AddGLTransactions(transactions: seq<Txn>, now: string)
      modifies this
      ensures glTransactions == old(glTransactions) + transactions
      ensures currentProject ==
        if old(currentProject).None? then None
        else Some(old(currentProject).value.(glTransactionCount := |glTransactions|,
                                             glFileCount := old(currentProject).value.glFileCount + 1,
                                             lastActivity := Some(now)))
      ensures currentProject.Some? ==> currentProject.value.glTransactionCount == |glTransactions|
      ensures bankTransactions == old(bankTransactions) && matchGroups == old(matchGroups)
      ensures isLoading == old(isLoading) && activeView == old(activeView)
    {
      var count := |glTransactions| + |transactions|;
      glTransactions := glTransactions + transactions;
      if currentProject.Some? {
        var p := currentProject.value;
        currentProject := Some(p.(glTransactionCount := count, glFileCount := p.glFileCount + 1,
                                  lastActivity := Some(now)));
      }
    }

    /**
     * The automatic run: exact groups first, applied to both lists; then
     * fuzzy proposals on what is still unmatched, applied in turn. The group
     * list is REPLACED by the groups of this run, and the project's rate
     * counts bank entries that are matched or potential.
     */
    method RunAutomaticMatching(exactIds: nat -> string, fuzzyIds: nat -> string,
                                search: FuzzyMatcher.Search, now: string)
      modifies this
      ensures var exact := ExactPhase(old(bankTransactions), old(glTransactions), exactIds, now);
              var fuzzy := FuzzyPhase(old(bankTransactions), old(glTransactions), exactIds, fuzzyIds, search, now);
              && matchGroups == exact + fuzzy
              && bankTransactions == Applied(Applied(old(bankTransactions), exact, BankSide), fuzzy, BankSide)
              && glTransactions == Applied(Applied(old(glTransactions), exact, GLSide), fuzzy, GLSide)
      ensures currentProject ==
        if old(currentProject).None? then None
        else Some(old(currentProject).value.(matchedTransactionCount := |Reviewed(bankTransactions)|,
                                             matchRate := Rate(|Reviewed(bankTransactions)|, |bankTransactions|),
                                             lastActivity := Some(now),
                                             status := InProgress))
      ensures !isLoading && activeView == old(activeView)
    {
      isLoading := true;
      var bank, gl := bankTransactions, glTransactions;
      var exact := ExactMatcher.FindExactMatches(bank, gl, exactIds, now);
      var bank1, gl1 := ApplyMatchGroups(bank, gl, exact);
      var fuzzy := FuzzyMatcher.FindPotentialMatches(bank1, gl1, search, fuzzyIds, now);
      var bank2, gl2 := ApplyMatchGroups(bank1, gl1, fuzzy);
      var matchedCount := |Reviewed(bank2)|;
      var matchRate := Rate(matchedCount, |bank2|);
      bankTransactions := bank2;
      glTransactions := gl2;
      matchGroups := exact + fuzzy;
      isLoading := false;
      if currentProject.Some? {
        currentProject := Some(currentProject.value.(matchedTransactionCount := matchedCount, matchRate := matchRate,
                                                     lastActivity := Some(now), status := InProgress));
      }
    }

    /**
     * A manual group over the given ids, appended to the group list and
     * applied to both lists: on lists with distinct ids, exactly the named
     * entries become potential members of the new group.
     */
    method CreateMatchGroup(bankIds: seq<string>, glIds: seq<string>, newId: string, now: string)
      modifies this
      ensures var g := ManualGroup(newId, bankIds, glIds, old(bankTransactions), old(glTransactions), now);
              && matchGroups == old(matchGroups) + [g]
              && bankTransactions == Applied(old(bankTransactions), [g], BankSide)
              && glTransactions == Applied(old(glTransactions), [g], GLSide)
      ensures currentProject == Recounted(old(currentProject), |Reviewed(bankTransactions)|, |bankTransactions|, now)
      ensures isLoading == old(isLoading) && activeView == old(activeView)
    {
      var g := ManualGroup(newId, bankIds, glIds, bankTransactions, glTransactions, now);
      var bank, gl := ApplyMatchGroups(bankTransactions, glTransactions, [g]);
      var matchedCount := |Reviewed(bank)|;
      bankTransactions, glTransactions := bank, gl;
      matchGroups := matchGroups + [g];
      currentProject := Recounted(currentProject, matchedCount, |bank|, now);
    }

    /**
     * Gives an existing group new members: the old members are unlinked, the
     * group (same id and position) becomes manual with recomputed totals, and
     * it is applied again. An unknown id changes nothing.
     */
    method UpdateMatchGroup(groupId: string, bankIds: seq<string>, glIds: seq<string>, now: string)
      modifies this
      ensures var k := GroupIndex(old(matchGroups), groupId);
              k < 0 ==>
                && matchGroups == old(matchGroups) && currentProject == old(currentProject)
                && bankTransactions == old(bankTransactions) && glTransactions == old(glTransactions)
      ensures var k := GroupIndex(old(matchGroups), groupId);
              k >= 0 ==>
                var g := old(matchGroups)[k];
                var u := Reassigned(g, bankIds, glIds, old(bankTransactions), old(glTransactions), now);
                && matchGroups == old(matchGroups)[k := u]
                && bankTransactions == Applied(ResetMembers(old(bankTransactions), g.bankTransactionIds), [u], BankSide)
                && glTransactions == Applied(ResetMembers(old(glTransactions), g.glTransactionIds), [u], GLSide)
                && currentProject == Recounted(old(currentProject), |Reviewed(bankTransactions)|, |bankTransactions|, now)
      ensures isLoading == old(isLoading) && activeView == old(activeView)
    {
      var k := GroupIndex(matchGroups, groupId);
      if k == -1 {
        return;
      }
      var g := matchGroups[k];
      var u := Reassigned(g, bankIds, glIds, bankTransactions, glTransactions, now);
      var resetBank := ResetMembers(bankTransactions, g.bankTransactionIds);
      var resetGl := ResetMembers(glTransactions, g.glTransactionIds);
      var bank, gl := ApplyMatchGroups(resetBank, resetGl, [u]);
      var matchedCount := |Reviewed(bank)|;
      bankTransactions, glTransactions := bank, gl;
      matchGroups := matchGroups[k := u];
      currentProject := Recounted(currentProject, matchedCount, |bank|, now);
    }

    /**
     * Confirms a group and applies it again, so its members become matched.
     * Unlike the other actions, the project's count and rate here take only
     * matched bank entries. An unknown id changes nothing.
     */
    method ConfirmMatchGroup(groupId: string, now: string)
      modifies this
      ensures var k := GroupIndex(old(matchGroups), groupId);
              k < 0 ==>
                && matchGroups == old(matchGroups) && currentProject == old(currentProject)
                && bankTransactions == old(bankTransactions) && glTransactions == old(glTransactions)
      ensures var k := GroupIndex(old(matchGroups), groupId);
              k >= 0 ==>
                var c := old(matchGroups)[k].(status := Confirmed, updatedAt := now);
                && matchGroups == old(matchGroups)[k := c]
                && bankTransactions == Applied(old(bankTransactions), [c], BankSide)
                && glTransactions == Applied(old(glTransactions), [c], GLSide)
                && currentProject ==
                     Recounted(old(currentProject), |WithStatus(bankTransactions, Matched)|, |bankTransactions|, now)
      ensures isLoading == old(isLoading) && activeView == old(activeView)
    {
      var k := GroupIndex(matchGroups, groupId);
      if k == -1 {
        return;
      }
      var c := matchGroups[k].(status := Confirmed, updatedAt := now);
      var bank, gl := ApplyMatchGroups(bankTransactions, glTransactions, [c]);
      var matchedCount := |WithStatus(bank, Matched)|;
      bankTransactions, glTransactions := bank, gl;
      matchGroups := matchGroups[k := c];
      currentProject := Recounted(currentProject, matchedCount, |bank|, now);
    }

    /**
     * Rejects a group: its members are unlinked and every group carrying the
     * id is removed. An unknown id changes nothing.
     */
    method RejectMatchGroup(groupId: string, now: string)
      modifies this
      ensures var k := GroupIndex(old(matchGroups), groupId);
              k < 0 ==>
                && matchGroups == old(matchGroups) && currentProject == old(currentProject)
                && bankTransactions == old(bankTransactions) && glTransactions == old(glTransactions)
      ensures var k := GroupIndex(old(matchGroups), groupId);
              k >= 0 ==>
                var g := old(matchGroups)[k];
                && matchGroups == RemoveGroup(old(matchGroups), groupId)
                && bankTransactions == ResetMembers(old(bankTransactions), g.bankTransactionIds)
                && glTransactions == ResetMembers(old(glTransactions), g.glTransactionIds)
                && currentProject == Recounted(old(currentProject), |Reviewed(bankTransactions)|, |bankTransactions|, now)
      ensures isLoading == old(isLoading) && activeView == old(activeView)
    {
      var k := GroupIndex(matchGroups, groupId);
      if k == -1 {
        return;
      }
      var g := matchGroups[k];
      var bank := ResetMembers(bankTransactions, g.bankTransactionIds);
      var gl := ResetMembers(glTransactions, g.glTransactionIds);
      var groups := RemoveGroup(matchGroups, groupId);
      var matchedCount := |Reviewed(bank)|;
      bankTransactions, glTransactions, matchGroups := bank, gl, groups;
      currentProject := Recounted(currentProject, matchedCount, |bank|, now);
    }

    /**
     * Sets the note of the first bank entry with the id or, when the bank
     * list has none, of the first GL entry with it; otherwise nothing
     * changes. A note never changes the statistics.
     */
    method AddTransactionNote(id: string, note: string)
      modifies this
      ensures var b := FindTxn(old(bankTransactions), id);
              b >= 0 ==>
                && bankTransactions == old(bankTransactions)[b := old(bankTransactions)[b].(notes := Some(note))]
                && glTransactions == old(glTransactions)
      ensures var b := FindTxn(old(bankTransactions), id);
              var g := FindTxn(old(glTransactions), id);
              b < 0 && g >= 0 ==>
                && bankTransactions == old(bankTransactions)
                && glTransactions == old(glTransactions)[g := old(glTransactions)[g].(notes := Some(note))]
      ensures FindTxn(old(bankTransactions), id) < 0 && FindTxn(old(glTransactions), id) < 0 ==>
                bankTransactions == old(bankTransactions) && glTransactions == old(glTransactions)
      ensures Stats.SameFigures(old(bankTransactions), bankTransactions)
      ensures Stats.SameFigures(old(glTransactions), glTransactions)
      ensures matchGroups == old(matchGroups) && currentProject == old(currentProject)
      ensures isLoading == old(isLoading) && activeView == old(activeView)
    {
      var bank, gl := bankTransactions, glTransactions;
      var b := FindTxn(bankTransactions, id);
      if b != -1 {
        bankTransactions := bank[b := bank[b].(notes := Some(note))];
      } else {
        var g := FindTxn(glTransactions, id);
        if g != -1 {
          glTransactions := gl[g := gl[g].(notes := Some(note))];
        }
      }
    }

    /**
     * Clears both lists and the groups and returns to the upload screen. The
     * project summary is left as it was, counts included.
     */
    method ResetReconciliation()
      modifies this
      ensures bankTransactions == [] && glTransactions == [] && matchGroups == []
      ensures activeView == UploadView
      ensures currentProject == old(currentProject) && isLoading == old(isLoading)
    {
      bankTransactions, glTransactions, matchGroups := [], [], [];
      activeView := UploadView;
    }
  }
}
