/**
 * The exact matcher (`findExactMatches`): unmatched GL entries are bucketed
 * by amount, then two greedy passes run over the unmatched bank entries in
 * input order. Pass A pairs a bank entry 1:1 with the single entry of its
 * bucket; pass B gives each bank entry still unclaimed every unclaimed entry
 * of its bucket. Sets of claimed ids keep an entry from being used twice in
 * one call.
 *
 * `ExactMatches` is the reference definition (a fold over the bank list);
 * `FindExactMatches` is the engine's procedure with its amount dictionary
 * and claimed-id sets, proved equal to it. The lemmas state what the passes
 * promise.
 */
module ExactMatcher {
  import opened Types

  /** `glByAmount[amountKey]`: the unmatched GL entries with this amount, in input order. */
  function Bucket(gl: seq<Txn>, amount: int): (b: seq<Txn>)
    ensures |b| <= |gl|
  {
    if gl == [] then []
    else
      var t := gl[|gl| - 1];
      Bucket(gl[..|gl| - 1], amount) + (if t.matchStatus == Unmatched && t.amount == amount then [t] else [])
  }

  /** A bucket holds exactly the unmatched GL entries of its amount. */
  lemma {:induction false} BucketMembers(gl: seq<Txn>, amount: int)
    ensures forall t :: t in Bucket(gl, amount) <==> t in gl && t.matchStatus == Unmatched && t.amount == amount
  {
    if gl != [] {
      var init := gl[..|gl| - 1];
      BucketMembers(init, amount);
      assert gl == init + [gl[|gl| - 1]];
    }
  }

  /** The bucket entries pass B may still take: unmatched and not claimed in this call. */
  function Available(bucket: seq<Txn>, claimed: set<string>): (r: seq<Txn>)
    ensures |r| <= |bucket|
  {
    if bucket == [] then []
    else
      var t := bucket[|bucket| - 1];
      Available(bucket[..|bucket| - 1], claimed)
        + (if t.matchStatus == Unmatched && t.id !in claimed then [t] else [])
  }

  /** Pass B may take exactly the bucket entries that are unmatched and unclaimed. */
  lemma {:induction false} AvailableMembers(bucket: seq<Txn>, claimed: set<string>)
    ensures forall t :: t in Available(bucket, claimed) <==> t in bucket && t.matchStatus == Unmatched && t.id !in claimed
  {
    if bucket != [] {
      var init := bucket[..|bucket| - 1];
      AvailableMembers(init, claimed);
      assert bucket == init + [bucket[|bucket| - 1]];
    }
  }

  /** The ids of a list of transactions, as a set. */
  function IdSet(txs: seq<Txn>): set<string>
  {
    set t | t in txs :: t.id
  }

  /** The group pass A emits: one bank entry, the single entry of its bucket, balanced by construction. */
  function OneToOne(b: Txn, g: Txn, id: string, now: string): MatchGroup
  {
    MatchGroup(id, [b.id], [g.id], Auto, now, now, None, b.amount, g.amount, true)
  }

  /** The group pass B emits: one bank entry against every entry still available in its bucket. */
  function OneToMany(b: Txn, avail: seq<Txn>, id: string, now: string): MatchGroup
  {
    MatchGroup(id, [b.id], Ids(avail), Auto, now, now, None, b.amount, Sum(avail), Balanced(b.amount, Sum(avail)))
  }

  /** What one call has produced so far: the groups, and the bank and GL ids they claimed. */
  datatype Claims = Claims(groups: seq<MatchGroup>, bankIds: set<string>, glIds: set<string>)

  /** Pass A on one bank entry. The k-th group of the call gets id `newId(k)`. */
  function StepA(c: Claims, b: Txn, gl: seq<Txn>, newId: nat -> string, now: string): Claims
  {
    if b.matchStatus != Unmatched then c
    else
      var bucket := Bucket(gl, b.amount);
      if |bucket| != 1 || bucket[0].id in c.glIds then c
      else Claims(c.groups + [OneToOne(b, bucket[0], newId(|c.groups|), now)],
                  c.bankIds + {b.id}, c.glIds + {bucket[0].id})
  }

  function PassA(bank: seq<Txn>, gl: seq<Txn>, newId: nat -> string, now: string): Claims
  {
    if bank == [] then Claims([], {}, {})
    else StepA(PassA(bank[..|bank| - 1], gl, newId, now), bank[|bank| - 1], gl, newId, now)
  }

  /** Pass B on one bank entry. */
  function StepB(c: Claims, b: Txn, gl: seq<Txn>, newId: nat -> string, now: string): Claims
  {
    if b.matchStatus != Unmatched || b.id in c.bankIds then c
    else
      var bucket := Bucket(gl, b.amount);
      var avail := Available(bucket, c.glIds);
      if |bucket| == 0 || |avail| == 0 then c
      else Claims(c.groups + [OneToMany(b, avail, newId(|c.groups|), now)],
                  c.bankIds + {b.id}, c.glIds + IdSet(avail))
  }

  function PassB(bank: seq<Txn>, gl: seq<Txn>, start: Claims, newId: nat -> string, now: string): Claims
  {
    if bank == [] then start
    else StepB(PassB(bank[..|bank| - 1], gl, start, newId, now), bank[|bank| - 1], gl, newId, now)
  }

  /** The groups `findExactMatches` returns: pass A, then pass B from where pass A left off. */
  function ExactMatches(bank: seq<Txn>, gl: seq<Txn>, newId: nat -> string, now: string): seq<MatchGroup>
  {
    PassB(bank, gl, PassA(bank, gl, newId, now), newId, now).groups
  }

  /** The amount dictionary: each present key maps to its bucket; absent keys have empty buckets. */
  ghost predicate IsBucketMap(glByAmount: map<int, seq<Txn>>, gl: seq<Txn>)
  {
    && (forall a :: a in glByAmount ==> glByAmount[a] == Bucket(gl, a))
    && (forall a :: a !in glByAmount ==> Bucket(gl, a) == [])
  }

  /** Extending the GL list by one entry extends one bucket at most. */
  lemma BucketNext(gl: seq<Txn>, i: nat)
    requires i < |gl|
    ensures forall a {:trigger Bucket(gl[..i + 1], a)} ::
              Bucket(gl[..i + 1], a)
              == Bucket(gl[..i], a) + (if gl[i].matchStatus == Unmatched && gl[i].amount == a then [gl[i]] else [])
  {
    assert gl[..i + 1][..i] == gl[..i];
  }

  /** The first `forEach`: push every unmatched GL entry onto the list of its amount. */
  method BucketByAmount(gl: seq<Txn>) returns (glByAmount: map<int, seq<Txn>>)
    ensures IsBucketMap(glByAmount, gl)
  {
    glByAmount := map[];
    for i := 0 to |gl|
      invariant IsBucketMap(glByAmount, gl[..i])
    {
      var t := gl[i];
      BucketNext(gl, i);
      if t.matchStatus == Unmatched {
        var pushed := (if t.amount in glByAmount then glByAmount[t.amount] else []) + [t];
        glByAmount := glByAmount[t.amount := pushed];
      }
    }
    assert gl[..|gl|] == gl;
  }

  /** The 1:1 pass over the bank entries. */
  method RunPassA(bank: seq<Txn>, gl: seq<Txn>, glByAmount: map<int, seq<Txn>>, newId: nat -> string, now: string)
    returns (groups: seq<MatchGroup>, matchedBankIds: set<string>, matchedGlIds: set<string>)
    requires IsBucketMap(glByAmount, gl)
    ensures Claims(groups, matchedBankIds, matchedGlIds) == PassA(bank, gl, newId, now)
  {
    groups, matchedBankIds, matchedGlIds := [], {}, {};
    for i := 0 to |bank|
      invariant Claims(groups, matchedBankIds, matchedGlIds) == PassA(bank[..i], gl, newId, now)
    {
      var b := bank[i];
      assert bank[..i + 1][..i] == bank[..i];
      if b.matchStatus == Unmatched && b.amount in glByAmount && |glByAmount[b.amount]| == 1 {
        var g := glByAmount[b.amount][0];
        if g.id !in matchedGlIds {
          groups := groups + [OneToOne(b, g, newId(|groups|), now)];
          matchedBankIds := matchedBankIds + {b.id};
          matchedGlIds := matchedGlIds + {g.id};
        }
      }
    }
    assert bank[..|bank|] == bank;
  }

  /** The 1:N pass over the bank entries pass A left unclaimed. */
  method RunPassB(bank: seq<Txn>, gl: seq<Txn>, glByAmount: map<int, seq<Txn>>, start: Claims,
                  newId: nat -> string, now: string)
    returns (groups: seq<MatchGroup>)
    requires IsBucketMap(glByAmount, gl)
    ensures groups == PassB(bank, gl, start, newId, now).groups
  {
    groups := start.groups;
    var matchedBankIds, matchedGlIds := start.bankIds, start.glIds;
    for i := 0 to |bank|
      invariant Claims(groups, matchedBankIds, matchedGlIds) == PassB(bank[..i], gl, start, newId, now)
    {
      var b := bank[i];
      assert bank[..i + 1][..i] == bank[..i];
      if b.matchStatus == Unmatched && b.id !in matchedBankIds && b.amount in glByAmount {
        var potential := glByAmount[b.amount];
        if |potential| > 0 {
          var avail := Available(potential, matchedGlIds);
          if |avail| > 0 {
            groups := groups + [OneToMany(b, avail, newId(|groups|), now)];
            matchedBankIds := matchedBankIds + {b.id};
            matchedGlIds := matchedGlIds + IdSet(avail);
          }
        }
      }
    }
    assert bank[..|bank|] == bank;
  }

  /**
   * `findExactMatches`: builds the amount dictionary, then runs the two
   * passes sharing the claimed-id sets; returns the groups `ExactMatches` defines.
   */
  method FindExactMatches(bank: seq<Txn>, gl: seq<Txn>, newId: nat -> string, now: string)
    returns (groups: seq<MatchGroup>)
    ensures groups == ExactMatches(bank, gl, newId, now)
  {
    var glByAmount := BucketByAmount(gl);
    var afterA, matchedBankIds, matchedGlIds := RunPassA(bank, gl, glByAmount, newId, now);
    groups := RunPassB(bank, gl, glByAmount, Claims(afterA, matchedBankIds, matchedGlIds), newId, now);
  }

  // ---------------------------------------------------------------------
  // What the passes promise
  // ---------------------------------------------------------------------

  /** No string of the first list occurs in the second. */
  predicate Disjoint(a: seq<string>, b: seq<string>)
  {
    forall x :: x in a ==> x !in b
  }

  /**
   * An exact group: status auto, one unmatched bank entry whose amount is the
   * bank total, at least one GL id, every GL id that of an unmatched GL entry
   * with that same amount, the GL total the sum of those amounts, and the
   * balance flag set by the one-cent rule.
   */
  ghost predicate ExactGroup(g: MatchGroup, bank: seq<Txn>, gl: seq<Txn>)
  {
    && g.status == Auto
    && |g.bankTransactionIds| == 1
    && (exists b :: b in bank && b.matchStatus == Unmatched && b.id == g.bankTransactionIds[0] && b.amount == g.bankTotal)
    && g.glTransactionIds != []
    && (forall id :: id in g.glTransactionIds ==> id in IdSet(Bucket(gl, g.bankTotal)))
    && g.glTotal == |g.glTransactionIds| * g.bankTotal
    && g.isBalanced == Balanced(g.bankTotal, g.glTotal)
  }

  /** The invariant both passes keep on what they have produced. */
  ghost predicate Sound(c: Claims, bank: seq<Txn>, gl: seq<Txn>)
  {
    && AllExact(c.groups, bank, gl)
    && BankIdsClaimed(c)
    && GlIdsClaimed(c)
    && GlIdsDistinct(c.groups)
  }

  ghost predicate AllExact(gs: seq<MatchGroup>, bank: seq<Txn>, gl: seq<Txn>)
  {
    forall k :: 0 <= k < |gs| ==> ExactGroup(gs[k], bank, gl)
  }

  /** The claimed bank ids are exactly the bank ids of the groups. */
  ghost predicate BankIdsClaimed(c: Claims)
  {
    && (forall k :: 0 <= k < |c.groups| ==>
          |c.groups[k].bankTransactionIds| == 1 && c.groups[k].bankTransactionIds[0] in c.bankIds)
    && (forall id :: id in c.bankIds ==>
          exists k :: 0 <= k < |c.groups| && |c.groups[k].bankTransactionIds| == 1 && c.groups[k].bankTransactionIds[0] == id)
  }

  /** Every GL id of a group is claimed. */
  ghost predicate GlIdsClaimed(c: Claims)
  {
    forall k, id :: 0 <= k < |c.groups| && id in c.groups[k].glTransactionIds ==> id in c.glIds
  }

  /** No bank id is in two of the groups. */
  predicate BankIdsDistinct(gs: seq<MatchGroup>)
  {
    forall m, n :: 0 <= m < n < |gs| ==> Disjoint(gs[m].bankTransactionIds, gs[n].bankTransactionIds)
  }

  /** Some group has this bank total. */
  predicate HasAmount(gs: seq<MatchGroup>, a: int)
  {
    exists k :: 0 <= k < |gs| && gs[k].bankTotal == a
  }

  /**
   * With distinct GL ids, buckets are claimed whole: every group holds
   * exactly the ids of the bucket of its amount, an unmatched GL entry is
   * claimed exactly when a group has its amount, and no two groups share an
   * amount.
   */
  ghost predicate WholeBuckets(c: Claims, gl: seq<Txn>)
  {
    GroupsHoldBuckets(c.groups, gl) && ClaimedIffGrouped(c, gl) && AmountsDistinct(c.groups)
  }

  ghost predicate GroupsHoldBuckets(gs: seq<MatchGroup>, gl: seq<Txn>)
  {
    forall k :: 0 <= k < |gs| ==> gs[k].glTransactionIds == Ids(Bucket(gl, gs[k].bankTotal))
  }

  ghost predicate ClaimedIffGrouped(c: Claims, gl: seq<Txn>)
  {
    forall i :: 0 <= i < |gl| && gl[i].matchStatus == Unmatched ==>
      (gl[i].id in c.glIds <==> HasAmount(c.groups, gl[i].amount))
  }

  predicate AmountsDistinct(gs: seq<MatchGroup>)
  {
    forall m, n :: 0 <= m < n < |gs| ==> gs[m].bankTotal != gs[n].bankTotal
  }

  lemma HasAmountAppend(gs: seq<MatchGroup>, g: MatchGroup, a: int)
    ensures HasAmount(gs + [g], a) <==> HasAmount(gs, a) || g.bankTotal == a
  {
    if HasAmount(gs + [g], a) {
      var k :| 0 <= k < |gs + [g]| && (gs + [g])[k].bankTotal == a;
      if k < |gs| { assert gs[k] == (gs + [g])[k]; }
    }
    if HasAmount(gs, a) {
      var k :| 0 <= k < |gs| && gs[k].bankTotal == a;
      assert (gs + [g])[k] == gs[k];
    }
    if g.bankTotal == a {
      assert (gs + [g])[|gs|] == g;
    }
  }

  /** Claiming one more whole bucket, for an amount no group has yet, keeps buckets whole. */
  lemma WholeAppend(c: Claims, g: MatchGroup, gl: seq<Txn>, bankIds: set<string>)
    requires UniqueIds(gl) && WholeBuckets(c, gl)
    requires !HasAmount(c.groups, g.bankTotal)
    requires g.glTransactionIds == Ids(Bucket(gl, g.bankTotal))
    ensures WholeBuckets(Claims(c.groups + [g], bankIds, c.glIds + IdSet(Bucket(gl, g.bankTotal))), gl)
  {
    HoldAppend(c.groups, g, gl);
    ClaimedAppend(c, g, gl, bankIds);
    DistinctAppend(c.groups, g);
  }

  lemma HoldAppend(gs: seq<MatchGroup>, g: MatchGroup, gl: seq<Txn>)
    requires GroupsHoldBuckets(gs, gl)
    requires g.glTransactionIds == Ids(Bucket(gl, g.bankTotal))
    ensures GroupsHoldBuckets(gs + [g], gl)
  {
    forall k | 0 <= k < |gs + [g]| ensures (gs + [g])[k].glTransactionIds == Ids(Bucket(gl, (gs + [g])[k].bankTotal)) {
      if k < |gs| { assert (gs + [g])[k] == gs[k]; }
    }
  }

  lemma DistinctAppend(gs: seq<MatchGroup>, g: MatchGroup)
    requires AmountsDistinct(gs) && !HasAmount(gs, g.bankTotal)
    ensures AmountsDistinct(gs + [g])
  {
    forall m, n | 0 <= m < n < |gs + [g]| ensures (gs + [g])[m].bankTotal != (gs + [g])[n].bankTotal {
      assert (gs + [g])[m] == gs[m];
      if n < |gs| { assert (gs + [g])[n] == gs[n]; }
    }
  }

  /** An unmatched GL entry lies in the bucket of an amount exactly when it has that amount. */
  lemma InBucketIds(gl: seq<Txn>, i: int, a: int)
    requires UniqueIds(gl) && 0 <= i < |gl| && gl[i].matchStatus == Unmatched
    ensures gl[i].id in IdSet(Bucket(gl, a)) <==> gl[i].amount == a
  {
    var bucket := Bucket(gl, a);
    BucketMembers(gl, a);
    if gl[i].id in IdSet(bucket) {
      var v :| v in bucket && v.id == gl[i].id;
      SameIdSameTxn(gl, gl[i], v);
    }
    if gl[i].amount == a {
      assert gl[i] in bucket;
    }
  }

  lemma ClaimedAppend(c: Claims, g: MatchGroup, gl: seq<Txn>, bankIds: set<string>)
    requires UniqueIds(gl) && ClaimedIffGrouped(c, gl)
    ensures ClaimedIffGrouped(Claims(c.groups + [g], bankIds, c.glIds + IdSet(Bucket(gl, g.bankTotal))), gl)
  {
    var glIds := c.glIds + IdSet(Bucket(gl, g.bankTotal));
    forall i | 0 <= i < |gl| && gl[i].matchStatus == Unmatched
      ensures gl[i].id in glIds <==> HasAmount(c.groups + [g], gl[i].amount)
    {
      HasAmountAppend(c.groups, g, gl[i].amount);
      InBucketIds(gl, i, g.bankTotal);
    }
  }

  lemma SameIdSameTxn(txs: seq<Txn>, t: Txn, u: Txn)
    requires UniqueIds(txs) && t in txs && u in txs && t.id == u.id
    ensures t == u
  {
    var i :| 0 <= i < |txs| && txs[i] == t;
    var j :| 0 <= j < |txs| && txs[j] == u;
  }

  /** Amounts that are all equal sum to their count times the amount. */
  lemma {:induction false} SumOfEqualAmounts(txs: seq<Txn>, a: int)
    requires forall t :: t in txs ==> t.amount == a
    ensures Sum(txs) == |txs| * a
  {
    if txs != [] {
      var init := txs[..|txs| - 1];
      assert forall t :: t in init ==> t in txs;
      SumOfEqualAmounts(init, a);
      calc {
        Sum(txs);
        (|txs| - 1) * a + a;
        { assert (|txs| - 1) * a + a == |txs| * a; }
        |txs| * a;
      }
    }
  }

  /** When nothing in the bucket is claimed, pass B may take all of it. */
  lemma {:induction false} AvailableAll(bucket: seq<Txn>, claimed: set<string>)
    requires forall i :: 0 <= i < |bucket| ==> bucket[i].matchStatus == Unmatched && bucket[i].id !in claimed
    ensures Available(bucket, claimed) == bucket
  {
    if bucket != [] {
      var init := bucket[..|bucket| - 1];
      AvailableAll(init, claimed);
      assert init + [bucket[|bucket| - 1]] == bucket;
    }
  }

  lemma IdsInIdSet(txs: seq<Txn>, id: string)
    requires id in Ids(txs)
    ensures id in IdSet(txs)
  {
    var j :| 0 <= j < |txs| && Ids(txs)[j] == id;
    assert txs[j] in txs;
  }

  /** No GL id is in two of the groups. */
  predicate GlIdsDistinct(gs: seq<MatchGroup>)
  {
    forall m, n :: 0 <= m < n < |gs| ==> Disjoint(gs[m].glTransactionIds, gs[n].glTransactionIds)
  }

  /** Appending a new exact group whose GL ids were unclaimed keeps the invariant. */
  lemma SoundAppend(c: Claims, g: MatchGroup, bank: seq<Txn>, gl: seq<Txn>, bankId: string, glIds: set<string>)
    requires Sound(c, bank, gl)
    requires ExactGroup(g, bank, gl) && g.bankTransactionIds == [bankId]
    requires forall id :: id in g.glTransactionIds ==> id !in c.glIds && id in glIds
    ensures Sound(Claims(c.groups + [g], c.bankIds + {bankId}, c.glIds + glIds), bank, gl)
    ensures bankId !in c.bankIds && BankIdsDistinct(c.groups) ==> BankIdsDistinct(c.groups + [g])
  {
    AllExactAppend(c.groups, g, bank, gl);
    BankIdsAppend(c, g, bankId, glIds);
    GlIdsAppend(c, g, bankId, glIds);
    GlDistinctAppend(c, g);
    if bankId !in c.bankIds && BankIdsDistinct(c.groups) {
      BankDistinctAppend(c, g, bankId);
    }
  }

  lemma AllExactAppend(gs: seq<MatchGroup>, g: MatchGroup, bank: seq<Txn>, gl: seq<Txn>)
    requires AllExact(gs, bank, gl) && ExactGroup(g, bank, gl)
    ensures AllExact(gs + [g], bank, gl)
  {
    forall k | 0 <= k < |gs + [g]| ensures ExactGroup((gs + [g])[k], bank, gl) {
      if k < |gs| { assert (gs + [g])[k] == gs[k]; }
    }
  }

  lemma GlIdsAppend(c: Claims, g: MatchGroup, bankId: string, glIds: set<string>)
    requires GlIdsClaimed(c)
    requires forall id :: id in g.glTransactionIds ==> id in glIds
    ensures GlIdsClaimed(Claims(c.groups + [g], c.bankIds + {bankId}, c.glIds + glIds))
  {
    var gs := c.groups + [g];
    forall k, id | 0 <= k < |gs| && id in gs[k].glTransactionIds ensures id in c.glIds + glIds {
      if k < |c.groups| { assert gs[k] == c.groups[k]; }
    }
  }

  lemma GlDistinctAppend(c: Claims, g: MatchGroup)
    requires GlIdsClaimed(c)
    requires GlIdsDistinct(c.groups)
    requires forall id :: id in g.glTransactionIds ==> id !in c.glIds
    ensures GlIdsDistinct(c.groups + [g])
  {
    var gs := c.groups + [g];
    forall m, n | 0 <= m < n < |gs| ensures Disjoint(gs[m].glTransactionIds, gs[n].glTransactionIds) {
      assert gs[m] == c.groups[m];
      if n == |c.groups| {
        forall x | x in gs[m].glTransactionIds ensures x !in g.glTransactionIds {
          assert x in c.glIds;
        }
      } else {
        assert gs[n] == c.groups[n];
      }
    }
  }

  lemma BankDistinctAppend(c: Claims, g: MatchGroup, bankId: string)
    requires BankIdsClaimed(c) && BankIdsDistinct(c.groups)
    requires g.bankTransactionIds == [bankId] && bankId !in c.bankIds
    ensures BankIdsDistinct(c.groups + [g])
  {
    var gs := c.groups + [g];
    forall m, n | 0 <= m < n < |gs| ensures Disjoint(gs[m].bankTransactionIds, gs[n].bankTransactionIds) {
      assert gs[m] == c.groups[m];
      if n == |c.groups| {
        assert gs[m].bankTransactionIds[0] in c.bankIds;
      } else {
        assert gs[n] == c.groups[n];
      }
    }
  }

  lemma BankIdsAppend(c: Claims, g: MatchGroup, bankId: string, glIds: set<string>)
    requires BankIdsClaimed(c) && g.bankTransactionIds == [bankId]
    ensures BankIdsClaimed(Claims(c.groups + [g], c.bankIds + {bankId}, c.glIds + glIds))
  {
    var gs := c.groups + [g];
    forall k | 0 <= k < |gs|
      ensures |gs[k].bankTransactionIds| == 1 && gs[k].bankTransactionIds[0] in c.bankIds + {bankId}
    {
      if k < |c.groups| { assert gs[k] == c.groups[k]; }
    }
    forall id | id in c.bankIds + {bankId}
      ensures exists k :: 0 <= k < |gs| && |gs[k].bankTransactionIds| == 1 && gs[k].bankTransactionIds[0] == id
    {
      if id == bankId {
        assert gs[|c.groups|] == g;
      } else {
        var k :| 0 <= k < |c.groups| && |c.groups[k].bankTransactionIds| == 1 && c.groups[k].bankTransactionIds[0] == id;
        assert gs[k] == c.groups[k];
      }
    }
  }

  lemma StepASound(c: Claims, b: Txn, bank: seq<Txn>, gl: seq<Txn>, newId: nat -> string, now: string)
    requires Sound(c, bank, gl) && b in bank
    ensures Sound(StepA(c, b, gl, newId, now), bank, gl)
    ensures b.id !in c.bankIds && BankIdsDistinct(c.groups) ==> BankIdsDistinct(StepA(c, b, gl, newId, now).groups)
    ensures StepA(c, b, gl, newId, now).bankIds <= c.bankIds + {b.id}
  {
    if b.matchStatus == Unmatched {
      var bucket := Bucket(gl, b.amount);
      BucketMembers(gl, b.amount);
      if |bucket| == 1 && bucket[0].id !in c.glIds {
        var u := bucket[0];
        assert u in bucket;
        var g := OneToOne(b, u, newId(|c.groups|), now);
        assert u.id in IdSet(bucket);
        assert ExactGroup(g, bank, gl);
        SoundAppend(c, g, bank, gl, b.id, {u.id});
      }
    }
  }

  lemma StepBSound(c: Claims, b: Txn, bank: seq<Txn>, gl: seq<Txn>, newId: nat -> string, now: string)
    requires Sound(c, bank, gl) && b in bank
    ensures Sound(StepB(c, b, gl, newId, now), bank, gl)
    ensures BankIdsDistinct(c.groups) ==> BankIdsDistinct(StepB(c, b, gl, newId, now).groups)
  {
    if b.matchStatus == Unmatched && b.id !in c.bankIds {
      var bucket := Bucket(gl, b.amount);
      var avail := Available(bucket, c.glIds);
      BucketMembers(gl, b.amount);
      AvailableMembers(bucket, c.glIds);
      if |bucket| != 0 && |avail| != 0 {
        var g := OneToMany(b, avail, newId(|c.groups|), now);
        SumOfEqualAmounts(avail, b.amount);
        forall id | id in g.glTransactionIds ensures id in IdSet(bucket) && id !in c.glIds && id in IdSet(avail) {
          var j :| 0 <= j < |avail| && Ids(avail)[j] == id;
          assert avail[j] in avail;
        }
        assert ExactGroup(g, bank, gl);
        SoundAppend(c, g, bank, gl, b.id, IdSet(avail));
      }
    }
  }

  lemma StepAWhole(c: Claims, b: Txn, gl: seq<Txn>, newId: nat -> string, now: string)
    requires UniqueIds(gl) && WholeBuckets(c, gl)
    ensures WholeBuckets(StepA(c, b, gl, newId, now), gl)
  {
    if b.matchStatus == Unmatched {
      var bucket := Bucket(gl, b.amount);
      BucketMembers(gl, b.amount);
      if |bucket| == 1 && bucket[0].id !in c.glIds {
        var u := bucket[0];
        assert u in bucket;
        var i :| 0 <= i < |gl| && gl[i] == u;
        assert bucket == [u];
        assert IdSet(bucket) == {u.id};
        WholeAppend(c, OneToOne(b, u, newId(|c.groups|), now), gl, c.bankIds + {b.id});
      }
    }
  }

  lemma StepBWhole(c: Claims, b: Txn, gl: seq<Txn>, newId: nat -> string, now: string)
    requires UniqueIds(gl) && WholeBuckets(c, gl)
    ensures WholeBuckets(StepB(c, b, gl, newId, now), gl)
  {
    if b.matchStatus == Unmatched && b.id !in c.bankIds {
      var bucket := Bucket(gl, b.amount);
      var avail := Available(bucket, c.glIds);
      BucketMembers(gl, b.amount);
      AvailableMembers(bucket, c.glIds);
      if |bucket| != 0 && |avail| != 0 {
        var u := avail[0];
        assert u in avail;
        var i :| 0 <= i < |gl| && gl[i] == u;
        assert !HasAmount(c.groups, b.amount);
        forall j | 0 <= j < |bucket| ensures bucket[j].matchStatus == Unmatched && bucket[j].id !in c.glIds {
          assert bucket[j] in bucket;
          var i' :| 0 <= i' < |gl| && gl[i'] == bucket[j];
        }
        AvailableAll(bucket, c.glIds);
        WholeAppend(c, OneToMany(b, avail, newId(|c.groups|), now), gl, c.bankIds + {b.id});
      }
    }
  }

  /** Pass A over one more bank entry is one more step. */
  lemma PassAStep(bank: seq<Txn>, gl: seq<Txn>, newId: nat -> string, now: string, i: nat)
    requires 0 < i <= |bank|
    ensures PassA(bank[..i], gl, newId, now) == StepA(PassA(bank[..i - 1], gl, newId, now), bank[i - 1], gl, newId, now)
  {
    assert bank[..i][..i - 1] == bank[..i - 1];
  }

  /** Pass A claims only ids of bank entries it has seen. */
  lemma {:induction false} PassAClaimsSeen(bank: seq<Txn>, gl: seq<Txn>, newId: nat -> string, now: string, i: nat)
    requires i <= |bank|
    ensures forall id :: id in PassA(bank[..i], gl, newId, now).bankIds ==> id in Ids(bank[..i])
  {
    if i > 0 {
      PassAClaimsSeen(bank, gl, newId, now, i - 1);
      PassAStep(bank, gl, newId, now, i);
      var c := PassA(bank[..i - 1], gl, newId, now);
      var b := bank[i - 1];
      assert StepA(c, b, gl, newId, now).bankIds <= c.bankIds + {b.id};
      forall id | id in StepA(c, b, gl, newId, now).bankIds ensures id in Ids(bank[..i]) {
        if id == b.id {
          assert Ids(bank[..i])[i - 1] == id;
        } else {
          var j :| 0 <= j < i - 1 && Ids(bank[..i - 1])[j] == id;
          assert Ids(bank[..i])[j] == id;
        }
      }
    }
  }

  /** Pass A over a prefix of the bank list. */
  lemma {:induction false} PassAPrefix(bank: seq<Txn>, gl: seq<Txn>, newId: nat -> string, now: string, i: nat)
    requires i <= |bank|
    ensures Sound(PassA(bank[..i], gl, newId, now), bank, gl)
    ensures forall id :: id in PassA(bank[..i], gl, newId, now).bankIds ==> id in Ids(bank[..i])
    ensures UniqueIds(bank) ==> BankIdsDistinct(PassA(bank[..i], gl, newId, now).groups)
    ensures UniqueIds(gl) ==> WholeBuckets(PassA(bank[..i], gl, newId, now), gl)
  {
    PassAClaimsSeen(bank, gl, newId, now, i);
    if i > 0 {
      PassAPrefix(bank, gl, newId, now, i - 1);
      PassAStep(bank, gl, newId, now, i);
      var c := PassA(bank[..i - 1], gl, newId, now);
      var b := bank[i - 1];
      StepASound(c, b, bank, gl, newId, now);
      if UniqueIds(bank) {
        assert b.id !in Ids(bank[..i - 1]);
      }
      if UniqueIds(gl) {
        StepAWhole(c, b, gl, newId, now);
      }
    }
  }

  /** Pass B over a prefix of the bank list, from a sound start. */
  lemma {:induction false} PassBPrefix(bank: seq<Txn>, gl: seq<Txn>, start: Claims, newId: nat -> string, now: string, i: nat)
    requires i <= |bank| && Sound(start, bank, gl)
    ensures Sound(PassB(bank[..i], gl, start, newId, now), bank, gl)
    ensures BankIdsDistinct(start.groups) ==> BankIdsDistinct(PassB(bank[..i], gl, start, newId, now).groups)
    ensures UniqueIds(gl) && WholeBuckets(start, gl) ==> WholeBuckets(PassB(bank[..i], gl, start, newId, now), gl)
  {
    if i > 0 {
      PassBPrefix(bank, gl, start, newId, now, i - 1);
      assert bank[..i][..i - 1] == bank[..i - 1];
      var c := PassB(bank[..i - 1], gl, start, newId, now);
      var b := bank[i - 1];
      assert PassB(bank[..i], gl, start, newId, now) == StepB(c, b, gl, newId, now);
      StepBSound(c, b, bank, gl, newId, now);
      if UniqueIds(gl) && WholeBuckets(start, gl) {
        StepBWhole(c, b, gl, newId, now);
      }
    } else {
      assert bank[..0] == [];
    }
  }

  /** Pass B only appends: the groups it starts from stay at the front, unchanged. */
  lemma {:induction false} PassBKeepsStart(bank: seq<Txn>, gl: seq<Txn>, start: Claims, newId: nat -> string, now: string)
    ensures |start.groups| <= |PassB(bank, gl, start, newId, now).groups|
    ensures PassB(bank, gl, start, newId, now).groups[..|start.groups|] == start.groups
  {
    if bank != [] {
      var init := bank[..|bank| - 1];
      PassBKeepsStart(init, gl, start, newId, now);
      var c := PassB(init, gl, start, newId, now);
      var r := StepB(c, bank[|bank| - 1], gl, newId, now);
      if r != c {
        assert r.groups[..|start.groups|] == c.groups[..|start.groups|];
      }
    }
  }

  /**
   * Every group `findExactMatches` emits is an exact group over unmatched
   * transactions: auto, one bank entry, and GL entries of the same amount,
   * with the GL total their sum and the balance flag by the one-cent rule.
   */
  lemma ExactGroupsWellFormed(bank: seq<Txn>, gl: seq<Txn>, newId: nat -> string, now: string)
    ensures forall g :: g in ExactMatches(bank, gl, newId, now) ==> ExactGroup(g, bank, gl)
  {
    assert bank[..|bank|] == bank;
    PassAPrefix(bank, gl, newId, now, |bank|);
    PassBPrefix(bank, gl, PassA(bank, gl, newId, now), newId, now, |bank|);
  }

  /**
   * Within one call no GL id is in two groups, and, when the bank ids are
   * distinct, no bank id is in two groups.
   */
  lemma ExactGroupsDisjoint(bank: seq<Txn>, gl: seq<Txn>, newId: nat -> string, now: string)
    ensures var gs := ExactMatches(bank, gl, newId, now);
            forall m, n :: 0 <= m < n < |gs| ==> Disjoint(gs[m].glTransactionIds, gs[n].glTransactionIds)
    ensures var gs := ExactMatches(bank, gl, newId, now);
            UniqueIds(bank) ==> forall m, n :: 0 <= m < n < |gs| ==> Disjoint(gs[m].bankTransactionIds, gs[n].bankTransactionIds)
  {
    assert bank[..|bank|] == bank;
    PassAPrefix(bank, gl, newId, now, |bank|);
    PassBPrefix(bank, gl, PassA(bank, gl, newId, now), newId, now, |bank|);
  }

  /**
   * With distinct GL ids a group always takes the WHOLE bucket of its
   * amount, so there is at most one group per amount, a group is 1:1 exactly
   * when its bucket holds one entry, and a group is balanced exactly when its
   * bucket holds one entry or the amount is zero.
   */
  lemma ExactGroupsTakeWholeBuckets(bank: seq<Txn>, gl: seq<Txn>, newId: nat -> string, now: string)
    requires UniqueIds(gl)
    ensures var gs := ExactMatches(bank, gl, newId, now);
            forall k :: 0 <= k < |gs| ==> gs[k].glTransactionIds == Ids(Bucket(gl, gs[k].bankTotal))
    ensures var gs := ExactMatches(bank, gl, newId, now);
            forall m, n :: 0 <= m < n < |gs| ==> gs[m].bankTotal != gs[n].bankTotal
    ensures var gs := ExactMatches(bank, gl, newId, now);
            forall k :: 0 <= k < |gs| ==> (gs[k].isBalanced <==> |Bucket(gl, gs[k].bankTotal)| == 1 || gs[k].bankTotal == 0)
  {
    assert bank[..|bank|] == bank;
    PassAPrefix(bank, gl, newId, now, |bank|);
    var c := PassB(bank, gl, PassA(bank, gl, newId, now), newId, now);
    PassBPrefix(bank, gl, PassA(bank, gl, newId, now), newId, now, |bank|);
    assert GroupsHoldBuckets(c.groups, gl) && AllExact(c.groups, bank, gl);
    forall k | 0 <= k < |c.groups|
      ensures c.groups[k].isBalanced <==> |Bucket(gl, c.groups[k].bankTotal)| == 1 || c.groups[k].bankTotal == 0
    {
      var g := c.groups[k];
      assert ExactGroup(g, bank, gl);
      BalancedMultiple(|g.glTransactionIds|, g.bankTotal);
    }
  }

  /** A total of `n` copies of an amount balances it exactly when `n` is one or the amount is zero. */
  lemma BalancedMultiple(n: int, a: int)
    ensures Balanced(a, n * a) <==> n == 1 || a == 0
  {
    assert a - n * a == (1 - n) * a;
    if n != 1 && a != 0 {
      assert (1 - n) * a != 0;
    }
  }

  /** A group only ever gets added, so an amount that has a group keeps it. */
  lemma StepBKeeps(c: Claims, b: Txn, gl: seq<Txn>, newId: nat -> string, now: string, a: int)
    requires HasAmount(c.groups, a)
    ensures HasAmount(StepB(c, b, gl, newId, now).groups, a)
  {
    var r := StepB(c, b, gl, newId, now);
    if r != c {
      HasAmountAppend(c.groups, r.groups[|c.groups|], a);
      assert r.groups == c.groups + [r.groups[|c.groups|]];
    }
  }

  /** After pass B has seen an unmatched bank entry with a non-empty bucket, some group has its amount. */
  lemma StepBCovers(c: Claims, b: Txn, bank: seq<Txn>, gl: seq<Txn>, newId: nat -> string, now: string)
    requires UniqueIds(bank) && UniqueIds(gl)
    requires Sound(c, bank, gl) && WholeBuckets(c, gl)
    requires b in bank && b.matchStatus == Unmatched && Bucket(gl, b.amount) != []
    ensures HasAmount(StepB(c, b, gl, newId, now).groups, b.amount)
  {
    var bucket := Bucket(gl, b.amount);
    var avail := Available(bucket, c.glIds);
    BucketMembers(gl, b.amount);
    AvailableMembers(bucket, c.glIds);
    if b.id in c.bankIds {
      var k :| 0 <= k < |c.groups| && |c.groups[k].bankTransactionIds| == 1 && c.groups[k].bankTransactionIds[0] == b.id;
      assert ExactGroup(c.groups[k], bank, gl);
      var b' :| b' in bank && b'.matchStatus == Unmatched && b'.id == c.groups[k].bankTransactionIds[0] && b'.amount == c.groups[k].bankTotal;
      SameIdSameTxn(bank, b, b');
    } else if |avail| != 0 {
      var r := StepB(c, b, gl, newId, now);
      assert r.groups[|c.groups|].bankTotal == b.amount;
    } else {
      var u := bucket[0];
      assert u in bucket && u !in avail;
      var i :| 0 <= i < |gl| && gl[i] == u;
    }
  }

  /** Pass B over one more bank entry is one more step. */
  lemma PassBStep(bank: seq<Txn>, gl: seq<Txn>, start: Claims, newId: nat -> string, now: string, i: nat)
    requires 0 < i <= |bank|
    ensures PassB(bank[..i], gl, start, newId, now)
              == StepB(PassB(bank[..i - 1], gl, start, newId, now), bank[i - 1], gl, newId, now)
  {
    assert bank[..i][..i - 1] == bank[..i - 1];
  }

  /** Every unmatched bank entry before position `i` whose bucket is non-empty has a group of its amount. */
  predicate Covered(gs: seq<MatchGroup>, bank: seq<Txn>, gl: seq<Txn>, i: nat)
    requires i <= |bank|
  {
    forall j :: 0 <= j < i && bank[j].matchStatus == Unmatched && Bucket(gl, bank[j].amount) != [] ==>
      HasAmount(gs, bank[j].amount)
  }

  /** One more step of pass B keeps the amounts covered so far and covers the entry it sees. */
  lemma PassBExtendsCover(bank: seq<Txn>, gl: seq<Txn>, start: Claims, newId: nat -> string, now: string, i: nat)
    requires 0 < i <= |bank| && UniqueIds(bank) && UniqueIds(gl)
    requires Sound(start, bank, gl) && WholeBuckets(start, gl)
    requires Covered(PassB(bank[..i - 1], gl, start, newId, now).groups, bank, gl, i - 1)
    ensures Covered(PassB(bank[..i], gl, start, newId, now).groups, bank, gl, i)
  {
    PassBPrefix(bank, gl, start, newId, now, i - 1);
    PassBStep(bank, gl, start, newId, now, i);
    var c := PassB(bank[..i - 1], gl, start, newId, now);
    var b := bank[i - 1];
    forall j | 0 <= j < i && bank[j].matchStatus == Unmatched && Bucket(gl, bank[j].amount) != []
      ensures HasAmount(StepB(c, b, gl, newId, now).groups, bank[j].amount)
    {
      if j == i - 1 {
        StepBCovers(c, b, bank, gl, newId, now);
      } else {
        StepBKeeps(c, b, gl, newId, now, bank[j].amount);
      }
    }
  }

  /** Pass B over a prefix: every unmatched bank entry seen so far with a non-empty bucket has a group of its amount. */
  lemma {:induction false} PassBCovers(bank: seq<Txn>, gl: seq<Txn>, start: Claims, newId: nat -> string, now: string, i: nat)
    requires i <= |bank| && UniqueIds(bank) && UniqueIds(gl)
    requires Sound(start, bank, gl) && WholeBuckets(start, gl)
    ensures Covered(PassB(bank[..i], gl, start, newId, now).groups, bank, gl, i)
  {
    if i > 0 {
      PassBCovers(bank, gl, start, newId, now, i - 1);
      PassBExtendsCover(bank, gl, start, newId, now, i);
    }
  }

  /**
   * With distinct ids on both sides the exact matcher misses no amount: every
   * unmatched bank entry whose amount some unmatched GL entry carries ends up
   * with a group of that amount (its own, or that of an earlier bank entry
   * with the same amount that took the whole bucket).
   */
  lemma ExactMatchesComplete(bank: seq<Txn>, gl: seq<Txn>, newId: nat -> string, now: string)
    requires UniqueIds(bank) && UniqueIds(gl)
    ensures forall j :: 0 <= j < |bank| && bank[j].matchStatus == Unmatched && Bucket(gl, bank[j].amount) != [] ==>
              HasAmount(ExactMatches(bank, gl, newId, now), bank[j].amount)
  {
    assert bank[..|bank|] == bank;
    PassAPrefix(bank, gl, newId, now, |bank|);
    PassBCovers(bank, gl, PassA(bank, gl, newId, now), newId, now, |bank|);
  }

  // ---------------------------------------------------------------------
  // Worked cases
  // ---------------------------------------------------------------------

  /** An unmatched bank entry with no optional fields, for the worked cases. */
  function BankEntry(id: string, amount: int): Txn
  {
    Txn(id, 0, amount, "", None, Unmatched, None, BankDetail(id, None, None))
  }

  /** An unmatched GL entry with no optional fields, for the worked cases. */
  function GLEntry(id: string, amount: int): Txn
  {
    Txn(id, 0, amount, "", None, Unmatched, None, GLDetail(None, None, None, None, None, None))
  }

  /** The bucket of 150.00 in the worked case holds both GL entries, in order. */
  lemma WorkedBucket()
    ensures var g1, g2 := GLEntry("g1", 15000), GLEntry("g2", 15000);
            Bucket([g1, g2], 15000) == [g1, g2]
  {
    var g1, g2 := GLEntry("g1", 15000), GLEntry("g2", 15000);
    assert [g1, g2][..1] == [g1] && [g1][..0] == [];
    assert Bucket([g1], 15000) == Bucket([], 15000) + [g1] == [g1];
  }

  /** The worked bucket's ids and total. */
  lemma WorkedTotals()
    ensures var g1, g2 := GLEntry("g1", 15000), GLEntry("g2", 15000);
            Ids([g1, g2]) == ["g1", "g2"] && Sum([g1, g2]) == 30000
  {
    var g1, g2 := GLEntry("g1", 15000), GLEntry("g2", 15000);
    assert [g1, g2][..1] == [g1] && [g1][..0] == [];
    assert Sum([g1]) == Sum([]) + 15000;
  }

  /** Pass B may take the whole worked bucket while nothing is claimed, and nothing once it is. */
  lemma WorkedAvailable()
    ensures var g1, g2 := GLEntry("g1", 15000), GLEntry("g2", 15000);
            && Available([g1, g2], {}) == [g1, g2]
            && Available([g1, g2], IdSet([g1, g2])) == []
  {
    var g1, g2 := GLEntry("g1", 15000), GLEntry("g2", 15000);
    assert [g1, g2][..1] == [g1] && [g1][..0] == [];
    assert g1 in [g1, g2] && g2 in [g1, g2];
    assert "g1" in IdSet([g1, g2]) && "g2" in IdSet([g1, g2]);
  }

  /** In the worked case pass A pairs nothing: the bucket holds two entries. */
  lemma WorkedPassA(newId: nat -> string, now: string)
    ensures var b1, b2 := BankEntry("b1", 15000), BankEntry("b2", 15000);
            var g1, g2 := GLEntry("g1", 15000), GLEntry("g2", 15000);
            PassA([b1, b2], [g1, g2], newId, now) == Claims([], {}, {})
  {
    var b1, b2 := BankEntry("b1", 15000), BankEntry("b2", 15000);
    var g1, g2 := GLEntry("g1", 15000), GLEntry("g2", 15000);
    var gl := [g1, g2];
    WorkedBucket();
    assert [b1, b2][..1] == [b1] && [b1][..0] == [];
    assert PassA([], gl, newId, now) == Claims([], {}, {});
    var a1 := PassA([b1], gl, newId, now);
    assert a1 == StepA(PassA([], gl, newId, now), b1, gl, newId, now);
    assert PassA([b1, b2], gl, newId, now) == StepA(a1, b2, gl, newId, now);
  }

  /** In the worked case pass B gives the first bank entry the whole bucket and the second nothing. */
  lemma WorkedPassB(newId: nat -> string, now: string)
    ensures var b1, b2 := BankEntry("b1", 15000), BankEntry("b2", 15000);
            var g1, g2 := GLEntry("g1", 15000), GLEntry("g2", 15000);
            PassB([b1, b2], [g1, g2], Claims([], {}, {}), newId, now).groups == [OneToMany(b1, [g1, g2], newId(0), now)]
  {
    var b1, b2 := BankEntry("b1", 15000), BankEntry("b2", 15000);
    var g1, g2 := GLEntry("g1", 15000), GLEntry("g2", 15000);
    var gl, a := [g1, g2], Claims([], {}, {});
    WorkedBucket();
    WorkedAvailable();
    assert [b1, b2][..1] == [b1] && [b1][..0] == [];
    var c1 := StepB(a, b1, gl, newId, now);
    assert c1 == Claims([OneToMany(b1, [g1, g2], newId(0), now)], {"b1"}, IdSet([g1, g2]));
    assert PassB([b1], gl, a, newId, now) == c1;
    assert PassB([b1, b2], gl, a, newId, now) == StepB(c1, b2, gl, newId, now);
  }

  /**
   * Two bank entries of 150.00 against two GL entries of 150.00: the bucket
   * holds two entries, so pass A pairs nothing; pass B gives the first bank
   * entry BOTH GL entries in one unbalanced group, and the second bank entry
   * finds nothing left.
   */
  lemma TwoEqualAmountsGiveOneGroup(newId: nat -> string, now: string)
    ensures var b1, b2 := BankEntry("b1", 15000), BankEntry("b2", 15000);
            var g1, g2 := GLEntry("g1", 15000), GLEntry("g2", 15000);
            var gs := ExactMatches([b1, b2], [g1, g2], newId, now);
            && gs == [OneToMany(b1, [g1, g2], newId(0), now)]
            && gs[0].glTransactionIds == ["g1", "g2"]
            && gs[0].glTotal == 30000
            && !gs[0].isBalanced
  {
    WorkedTotals();
    WorkedPassA(newId, now);
    WorkedPassB(newId, now);
  }


  /**
   * Bank 100.00 and 250.00 against GL 100.00 and 300.00: the 100.00 entries
   * pair 1:1 in pass A; 250.00 has an empty bucket and 300.00 no bank entry.
   */
  lemma SingleBucketPairsOneToOne(newId: nat -> string, now: string)
    ensures var b1, b2 := BankEntry("b1", 10000), BankEntry("b2", 25000);
            var g1, g2 := GLEntry("g1", 10000), GLEntry("g2", 30000);
            ExactMatches([b1, b2], [g1, g2], newId, now) == [OneToOne(b1, g1, newId(0), now)]
  {
    var b1, b2 := BankEntry("b1", 10000), BankEntry("b2", 25000);
    var g1, g2 := GLEntry("g1", 10000), GLEntry("g2", 30000);
    var gl := [g1, g2];
    assert gl[..1] == [g1] && [g1][..0] == [];
    assert Bucket(gl, 10000) == [g1];
    assert Bucket(gl, 25000) == [];
    assert [b1, b2][..1] == [b1] && [b1][..0] == [];
    var a := PassA([b1, b2], gl, newId, now);
    var a1 := PassA([b1], gl, newId, now);
    assert PassA([], gl, newId, now) == Claims([], {}, {});
    assert a1 == StepA(PassA([], gl, newId, now), b1, gl, newId, now);
    assert a1 == Claims([OneToOne(b1, g1, newId(0), now)], {"b1"}, {"g1"});
    assert a == StepA(a1, b2, gl, newId, now);
    assert a == a1;
    assert PassB([b1], gl, a, newId, now) == StepB(a, b1, gl, newId, now) == a;
    assert PassB([b1, b2], gl, a, newId, now) == StepB(a, b2, gl, newId, now) == a;
  }
}
