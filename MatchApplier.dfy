/**
 * Projecting match groups onto the two transaction lists
 * (`applyMatchGroups`). The engine indexes each list in a map keyed by id,
 * walks the groups in order and overwrites the match fields of every
 * transaction a group names, then reads the map back in insertion order.
 */
module MatchApplier {
  import opened Types

  /** The review state a group gives its members: matched only when confirmed. */
  function StatusFor(s: GroupStatus): (m: MatchStatus)
    ensures m != Unmatched
    ensures m == Matched <==> s == Confirmed
  {
    if s == Confirmed then Matched else Potential
  }

  /** A transaction as a group leaves it: its state and its back-reference. */
  function Mark(tx: Txn, g: MatchGroup): Txn
  {
    tx.(matchStatus := StatusFor(g.status), matchGroup := Some(g.id))
  }

  /** The transaction after the groups have been applied one after the other. */
  function Stamp(tx: Txn, groups: seq<MatchGroup>, side: Side): Txn
  {
    if groups == [] then tx
    else
      var t := Stamp(tx, groups[..|groups| - 1], side);
      var g := groups[|groups| - 1];
      if tx.id in Members(g, side) then Mark(t, g) else t
  }

  /** The position of the last group that names `id` on `side`, or -1. */
  function LastNaming(groups: seq<MatchGroup>, id: string, side: Side): (k: int)
    ensures -1 <= k < |groups|
    ensures k >= 0 ==> id in Members(groups[k], side)
    ensures forall j :: k < j < |groups| ==> id !in Members(groups[j], side)
  {
    if groups == [] then -1
    else if id in Members(groups[|groups| - 1], side) then |groups| - 1
    else LastNaming(groups[..|groups| - 1], id, side)
  }

  /**
   * Applying the groups leaves a transaction alone when no group names it and
   * otherwise gives it the state and id of the LAST group that names it; every
   * other field is kept.
   */
  lemma {:induction false} StampIsLastGroup(tx: Txn, groups: seq<MatchGroup>, side: Side)
    ensures var k := LastNaming(groups, tx.id, side);
            Stamp(tx, groups, side) == if k < 0 then tx else Mark(tx, groups[k])
  {
    if groups != [] {
      StampIsLastGroup(tx, groups[..|groups| - 1], side);
    }
  }

  /**
   * The list a JavaScript `Map` keyed by id holds after the transactions have
   * been inserted in order: one entry per distinct id, at the position where
   * the id first occurred, holding the last transaction with that id.
   */
  function Dedup(txs: seq<Txn>): seq<Txn>
  {
    if txs == [] then []
    else
      var d := Dedup(txs[..|txs| - 1]);
      var t := txs[|txs| - 1];
      var p := FindTxn(d, t.id);
      if p >= 0 then d[p := t] else d + [t]
  }

  /** One insertion into the map, as `Dedup` performs it for the last transaction. */
  lemma DedupLast(txs: seq<Txn>)
    requires txs != []
    ensures var d := Dedup(txs[..|txs| - 1]);
            var t := txs[|txs| - 1];
            var p := FindTxn(d, t.id);
            Dedup(txs) == if p >= 0 then d[p := t] else d + [t]
  {
  }

  /** The map never holds two entries with one id. */
  lemma {:induction false} DedupUniqueIds(txs: seq<Txn>)
    ensures UniqueIds(Dedup(txs))
  {
    if txs != [] {
      var init := txs[..|txs| - 1];
      DedupUniqueIds(init);
      DedupLast(txs);
    }
  }

  /** Every entry of the map is one of the inserted transactions. */
  lemma {:induction false} DedupFromInput(txs: seq<Txn>)
    ensures |Dedup(txs)| <= |txs|
    ensures forall t :: t in Dedup(txs) ==> t in txs
  {
    if txs != [] {
      var init := txs[..|txs| - 1];
      DedupFromInput(init);
      DedupLast(txs);
      var d := Dedup(init);
      var t := txs[|txs| - 1];
      var p := FindTxn(d, t.id);
      var r := Dedup(txs);
      forall x | x in r ensures x in txs {
        var q :| 0 <= q < |r| && r[q] == x;
        if q < |d| && !(p >= 0 && q == p) {
          assert r[q] == d[q] && d[q] in init;
        }
      }
    }
  }

  /** Some entry of the list carries the id. */
  predicate HasId(txs: seq<Txn>, id: string)
  {
    exists q :: 0 <= q < |txs| && txs[q].id == id
  }

  /** Overwriting an entry with one of the same id keeps every id. */
  lemma OverwriteKeepsIds(d: seq<Txn>, p: nat, t: Txn)
    requires p < |d| && d[p].id == t.id
    ensures forall id :: HasId(d, id) ==> HasId(d[p := t], id)
    ensures HasId(d[p := t], t.id)
  {
    var r := d[p := t];
    forall id | HasId(d, id) ensures HasId(r, id) {
      var q :| 0 <= q < |d| && d[q].id == id;
      assert r[q].id == id;
    }
    assert r[p].id == t.id;
  }

  /** Appending an entry keeps every id and adds its own. */
  lemma AppendKeepsIds(d: seq<Txn>, t: Txn)
    ensures forall id :: HasId(d, id) ==> HasId(d + [t], id)
    ensures HasId(d + [t], t.id)
  {
    var r := d + [t];
    forall id | HasId(d, id) ensures HasId(r, id) {
      var q :| 0 <= q < |d| && d[q].id == id;
      assert r[q] == d[q];
    }
    assert r[|d|] == t;
  }

  /** Every inserted id has an entry in the map. */
  lemma {:induction false} DedupKeepsIds(txs: seq<Txn>)
    ensures forall i :: 0 <= i < |txs| ==> HasId(Dedup(txs), txs[i].id)
  {
    if txs != [] {
      var init := txs[..|txs| - 1];
      DedupKeepsIds(init);
      DedupLast(txs);
      var d := Dedup(init);
      var t := txs[|txs| - 1];
      var p := FindTxn(d, t.id);
      if p >= 0 {
        OverwriteKeepsIds(d, p, t);
      } else {
        AppendKeepsIds(d, t);
      }
      forall i | 0 <= i < |txs| - 1 ensures HasId(Dedup(txs), txs[i].id) {
        assert init[i] == txs[i];
      }
    }
  }

  /** Keying a list whose ids are already distinct changes nothing. */
  lemma {:induction false} DedupOfUniqueIds(txs: seq<Txn>)
    requires UniqueIds(txs)
    ensures Dedup(txs) == txs
  {
    if txs != [] {
      var init := txs[..|txs| - 1];
      DedupOfUniqueIds(init);
      var t := txs[|txs| - 1];
      assert FindTxn(init, t.id) < 0 by {
        forall k | 0 <= k < |init| ensures init[k].id != t.id {
          assert txs[k] == init[k];
        }
      }
      assert init + [t] == txs;
    }
  }

  /** `applyMatchGroups` on one of the two lists. */
  function Applied(txs: seq<Txn>, groups: seq<MatchGroup>, side: Side): seq<Txn>
  {
    var d := Dedup(txs);
    seq(|d|, k requires 0 <= k < |d| => Stamp(d[k], groups, side))
  }

  /**
   * On a list with distinct ids the result has the same length, order and ids:
   * position i holds the i-th transaction with its match fields taken from
   * the last group naming it, or unchanged when no group names it; all other
   * fields are unchanged.
   */
  lemma AppliedPointwise(txs: seq<Txn>, groups: seq<MatchGroup>, side: Side)
    requires UniqueIds(txs)
    ensures |Applied(txs, groups, side)| == |txs|
    ensures forall i :: 0 <= i < |txs| ==>
      var k := LastNaming(groups, txs[i].id, side);
      Applied(txs, groups, side)[i] == if k < 0 then txs[i] else Mark(txs[i], groups[k])
  {
    DedupOfUniqueIds(txs);
    forall i | 0 <= i < |txs|
      ensures var k := LastNaming(groups, txs[i].id, side);
              Applied(txs, groups, side)[i] == if k < 0 then txs[i] else Mark(txs[i], groups[k])
    {
      StampIsLastGroup(txs[i], groups, side);
    }
  }

  /**
   * Applying one group: on a list with distinct ids every transaction the
   * group names takes the group's state and id, and every other one is kept.
   */
  lemma AppliedOneGroup(txs: seq<Txn>, g: MatchGroup, side: Side)
    requires UniqueIds(txs)
    ensures |Applied(txs, [g], side)| == |txs|
    ensures forall i :: 0 <= i < |txs| ==>
      Applied(txs, [g], side)[i] == if txs[i].id in Members(g, side) then Mark(txs[i], g) else txs[i]
  {
    AppliedPointwise(txs, [g], side);
  }

  /** A transaction named by one of the groups is no longer unmatched, whatever its state was. */
  lemma StampOfNamed(tx: Txn, groups: seq<MatchGroup>, side: Side, j: nat)
    requires j < |groups| && tx.id in Members(groups[j], side)
    ensures Stamp(tx, groups, side).matchStatus != Unmatched
    ensures Stamp(tx, groups, side).matchGroup.Some?
  {
    StampIsLastGroup(tx, groups, side);
  }

  /** Stamping keeps the id, so the ids stay distinct. */
  lemma AppliedUniqueIds(txs: seq<Txn>, groups: seq<MatchGroup>, side: Side)
    ensures UniqueIds(Applied(txs, groups, side))
    ensures |Applied(txs, groups, side)| == |Dedup(txs)|
    ensures forall k :: 0 <= k < |Dedup(txs)| ==> Applied(txs, groups, side)[k].id == Dedup(txs)[k].id
  {
    DedupUniqueIds(txs);
    forall k | 0 <= k < |Dedup(txs)| ensures Applied(txs, groups, side)[k].id == Dedup(txs)[k].id {
      StampIsLastGroup(Dedup(txs)[k], groups, side);
    }
  }

  /** Applying the same groups a second time changes nothing. */
  lemma AppliedIdempotent(txs: seq<Txn>, groups: seq<MatchGroup>, side: Side)
    ensures Applied(Applied(txs, groups, side), groups, side) == Applied(txs, groups, side)
  {
    var once := Applied(txs, groups, side);
    AppliedUniqueIds(txs, groups, side);
    DedupOfUniqueIds(once);
    var d := Dedup(txs);
    forall k | 0 <= k < |once| ensures Stamp(once[k], groups, side) == once[k] {
      StampIsLastGroup(d[k], groups, side);
      StampIsLastGroup(once[k], groups, side);
    }
  }

  /** `byId` and its key order `order` hold exactly the entries of `d`, in order. */
  predicate Indexes(byId: map<string, Txn>, order: seq<string>, d: seq<Txn>)
  {
    && |order| == |d|
    && (forall k :: 0 <= k < |order| ==> order[k] == d[k].id && order[k] in byId && byId[order[k]] == d[k])
    && (forall id :: id in byId ==> id in order)
  }

  /** A `set` on a key the map already holds: the entry is replaced in place. */
  lemma IndexOverwrite(byId: map<string, Txn>, order: seq<string>, d: seq<Txn>, t: Txn, p: nat)
    requires UniqueIds(d) && Indexes(byId, order, d)
    requires p < |d| && d[p].id == t.id
    ensures Indexes(byId[t.id := t], order, d[p := t])
  {
    var m, d' := byId[t.id := t], d[p := t];
    forall k | 0 <= k < |order| ensures order[k] == d'[k].id && order[k] in m && m[order[k]] == d'[k] {
      if k != p {
        assert d[k].id != d[p].id;
      }
    }
  }

  /** A `set` on a new key: the entry goes last. */
  lemma IndexAppend(byId: map<string, Txn>, order: seq<string>, d: seq<Txn>, t: Txn)
    requires Indexes(byId, order, d) && t.id !in byId
    ensures Indexes(byId[t.id := t], order + [t.id], d + [t])
  {
    var m, o, d' := byId[t.id := t], order + [t.id], d + [t];
    forall k | 0 <= k < |o| ensures o[k] == d'[k].id && o[k] in m && m[o[k]] == d'[k] {
      if k < |order| {
        assert o[k] == order[k] && d'[k] == d[k];
      }
    }
  }

  /**
   * `new Map(txs.map(tx => [tx.id, tx]))`: the entries by id, and the order in
   * which their keys were first inserted.
   */
  method IndexById(txs: seq<Txn>) returns (byId: map<string, Txn>, order: seq<string>)
    ensures |order| == |Dedup(txs)|
    ensures forall k :: 0 <= k < |order| ==> order[k] == Dedup(txs)[k].id
    ensures forall k :: 0 <= k < |order| ==> order[k] in byId && byId[order[k]] == Dedup(txs)[k]
    ensures forall id :: id in byId ==> id in order
    ensures forall a, b :: 0 <= a < b < |order| ==> order[a] != order[b]
  {
    byId, order := map[], [];
    for i := 0 to |txs|
      invariant Indexes(byId, order, Dedup(txs[..i]))
    {
      var t := txs[i];
      assert txs[..i + 1][..i] == txs[..i];
      DedupUniqueIds(txs[..i]);
      DedupLast(txs[..i + 1]);
      ghost var d := Dedup(txs[..i]);
      if t.id in byId {
        var q :| 0 <= q < |order| && order[q] == t.id;
        IndexOverwrite(byId, order, d, t, q);
        assert FindTxn(d, t.id) == q;
        byId := byId[t.id := t];
      } else {
        assert FindTxn(d, t.id) < 0;
        IndexAppend(byId, order, d, t);
        byId := byId[t.id := t];
        order := order + [t.id];
      }
    }
    assert txs[..|txs|] == txs;
    DedupUniqueIds(txs);
  }

  /** The inner `forEach` over one id list of a group: mark every entry it names. */
  method MarkNamed(byId: map<string, Txn>, ids: seq<string>, g: MatchGroup) returns (r: map<string, Txn>)
    ensures r.Keys == byId.Keys
    ensures forall id :: id in r ==> r[id] == if id in ids then Mark(byId[id], g) else byId[id]
  {
    r := byId;
    for j := 0 to |ids|
      invariant r.Keys == byId.Keys
      invariant forall id :: id in r ==> r[id] == if id in ids[..j] then Mark(byId[id], g) else byId[id]
    {
      var id := ids[j];
      if id in r {
        r := r[id := Mark(r[id], g)];
      }
      assert ids[..j + 1] == ids[..j] + [id];
    }
    assert ids[..|ids|] == ids;
  }

  /** Applying one more group, for every transaction at once; the id is kept. */
  lemma StampNext(groups: seq<MatchGroup>, i: nat, side: Side)
    requires i < |groups|
    ensures forall tx {:trigger Stamp(tx, groups[..i + 1], side)} ::
      Stamp(tx, groups[..i + 1], side) ==
        if tx.id in Members(groups[i], side) then Mark(Stamp(tx, groups[..i], side), groups[i])
        else Stamp(tx, groups[..i], side)
    ensures forall tx {:trigger Stamp(tx, groups[..i], side)} :: Stamp(tx, groups[..i], side).id == tx.id
  {
    assert groups[..i + 1][..i] == groups[..i];
    forall tx ensures Stamp(tx, groups[..i], side).id == tx.id {
      StampIsLastGroup(tx, groups[..i], side);
    }
  }

  /** What the map holds when every entry has been stamped: `Applied`, read back in key order. */
  lemma ReadBack(txs: seq<Txn>, groups: seq<MatchGroup>, side: Side, byId: map<string, Txn>, order: seq<string>)
    requires |order| == |Dedup(txs)|
    requires forall k :: 0 <= k < |order| ==> order[k] in byId && byId[order[k]] == Stamp(Dedup(txs)[k], groups, side)
    ensures seq(|order|, k requires 0 <= k < |order| && order[k] in byId => byId[order[k]]) == Applied(txs, groups, side)
  {
  }

  /** Marking the entries one group names advances every stamped entry by that group. */
  lemma MarkAdvances(d: seq<Txn>, groups: seq<MatchGroup>, i: nat, side: Side,
                     before: map<string, Txn>, after: map<string, Txn>, order: seq<string>)
    requires i < |groups| && |order| == |d|
    requires forall k :: 0 <= k < |order| ==> order[k] == d[k].id
    requires forall k :: 0 <= k < |order| ==> order[k] in before && before[order[k]] == Stamp(d[k], groups[..i], side)
    requires after.Keys == before.Keys
    requires forall id :: id in after ==>
      after[id] == if id in Members(groups[i], side) then Mark(before[id], groups[i]) else before[id]
    ensures forall k :: 0 <= k < |order| ==> order[k] in after && after[order[k]] == Stamp(d[k], groups[..i + 1], side)
  {
    StampNext(groups, i, side);
  }

  /**
   * `applyMatchGroups`: both lists after the groups have been applied in
   * order. Proved equal to `Applied` on each side.
   */
  method ApplyMatchGroups(bank: seq<Txn>, gl: seq<Txn>, groups: seq<MatchGroup>)
    returns (bank': seq<Txn>, gl': seq<Txn>)
    ensures bank' == Applied(bank, groups, BankSide)
    ensures gl' == Applied(gl, groups, GLSide)
  {
    var bankMap, bankOrder := IndexById(bank);
    var glMap, glOrder := IndexById(gl);
    ghost var db, dg := Dedup(bank), Dedup(gl);
    for i := 0 to |groups|
      invariant forall id :: id in bankMap ==> id in bankOrder
      invariant forall id :: id in glMap ==> id in glOrder
      invariant forall k :: 0 <= k < |bankOrder| ==>
        bankOrder[k] in bankMap && bankMap[bankOrder[k]] == Stamp(db[k], groups[..i], BankSide)
      invariant forall k :: 0 <= k < |glOrder| ==>
        glOrder[k] in glMap && glMap[glOrder[k]] == Stamp(dg[k], groups[..i], GLSide)
    {
      var g := groups[i];
      var bankNext := MarkNamed(bankMap, g.bankTransactionIds, g);
      MarkAdvances(db, groups, i, BankSide, bankMap, bankNext, bankOrder);
      var glNext := MarkNamed(glMap, g.glTransactionIds, g);
      MarkAdvances(dg, groups, i, GLSide, glMap, glNext, glOrder);
      bankMap, glMap := bankNext, glNext;
    }
    assert groups[..|groups|] == groups;
    ReadBack(bank, groups, BankSide, bankMap, bankOrder);
    ReadBack(gl, groups, GLSide, glMap, glOrder);
    bank' := seq(|bankOrder|, k requires 0 <= k < |bankOrder| && bankOrder[k] in bankMap => bankMap[bankOrder[k]]);
    gl' := seq(|glOrder|, k requires 0 <= k < |glOrder| && glOrder[k] in glMap => glMap[glOrder[k]]);
  }
}
