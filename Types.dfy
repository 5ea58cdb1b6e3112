/**
 * The records the reconciliation engine works on: transactions from the two
 * feeds, match groups, the project summary, and the small arithmetic and
 * search helpers the engine, the store and the statistics share.
 *
 * Amounts are integer cents and dates are day numbers, so the engine's
 * one-cent tolerance `Math.abs(a - b) < 0.01` is `Balanced` below and the
 * `toFixed(2)` amount key is plain equality of cents.
 */
module Types {

  datatype Option<T> = None | Some(value: T)

  /** Review state of a transaction. */
  datatype MatchStatus = Unmatched | Potential | Matched

  /** Lifecycle state of a match group. */
  datatype GroupStatus = Auto | Manual | Confirmed | Rejected

  /** The fields only one of the two feeds carries. */
  datatype Detail =
    | BankDetail(uniqueIdentifier: string, bankAccount: Option<string>, checkNumber: Option<string>)
    | GLDetail(glAccount: Option<string>, reference: Option<string>, department: Option<string>,
               category: Option<string>, isModified: Option<bool>, originalAmount: Option<int>)

  /** A bank or general-ledger transaction; `amount` in cents, `date` a day number. */
  datatype Txn = Txn(
    id: string,
    date: int,
    amount: int,
    description: string,
    notes: Option<string>,
    matchStatus: MatchStatus,
    matchGroup: Option<string>,
    detail: Detail)

  /** A proposed or confirmed pairing of bank and GL transactions. */
  datatype MatchGroup = MatchGroup(
    id: string,
    bankTransactionIds: seq<string>,
    glTransactionIds: seq<string>,
    status: GroupStatus,
    createdAt: string,
    updatedAt: string,
    notes: Option<string>,
    bankTotal: int,
    glTotal: int,
    isBalanced: bool)

  /** Which id list of a group, and which transaction list, an operation works on. */
  datatype Side = BankSide | GLSide

  function Members(g: MatchGroup, side: Side): seq<string>
  {
    if side == BankSide then g.bankTransactionIds else g.glTransactionIds
  }

  datatype ProjectStatus = Draft | InProgress | Completed

  /** The summary of the reconciliation project the store keeps up to date. */
  datatype Project = Project(
    id: string,
    name: string,
    periodStart: Option<string>,
    periodEnd: Option<string>,
    status: ProjectStatus,
    bankAccount: Option<string>,
    createdAt: string,
    updatedAt: string,
    bankFileCount: nat,
    glFileCount: nat,
    bankTransactionCount: nat,
    glTransactionCount: nat,
    matchedTransactionCount: nat,
    matchRate: real,
    lastActivity: Option<string>)

  function Abs(x: int): int
  {
    if x < 0 then -x else x
  }

  /** `Math.abs(a - b) < 0.01` on amounts held in cents: they differ by less than one cent. */
  predicate Balanced(a: int, b: int)
  {
    Abs(a - b) < 1
  }

  /** The ids of a list of transactions, in order. */
  function Ids(txs: seq<Txn>): (r: seq<string>)
    ensures |r| == |txs|
    ensures forall i :: 0 <= i < |txs| ==> r[i] == txs[i].id
  {
    if txs == [] then [] else Ids(txs[..|txs| - 1]) + [txs[|txs| - 1].id]
  }

  /** No two positions of the list carry the same id. */
  predicate UniqueIds(txs: seq<Txn>)
  {
    forall i, j :: 0 <= i < |txs| && 0 <= j < |txs| && i != j ==> txs[i].id != txs[j].id
  }

  /** The sum of the amounts, as `reduce((sum, tx) => sum + tx.amount, 0)`. */
  function Sum(txs: seq<Txn>): int
  {
    if txs == [] then 0 else Sum(txs[..|txs| - 1]) + txs[|txs| - 1].amount
  }

  /** The transactions with the given review state, in order (`filter`). */
  function WithStatus(txs: seq<Txn>, s: MatchStatus): (r: seq<Txn>)
    ensures |r| <= |txs|
  {
    if txs == [] then []
    else
      var last := txs[|txs| - 1];
      WithStatus(txs[..|txs| - 1], s) + (if last.matchStatus == s then [last] else [])
  }

  /** The filter keeps exactly the transactions with the state. */
  lemma {:induction false} WithStatusMembers(txs: seq<Txn>, s: MatchStatus)
    ensures forall t :: t in WithStatus(txs, s) <==> t in txs && t.matchStatus == s
  {
    if txs != [] {
      var init := txs[..|txs| - 1];
      WithStatusMembers(init, s);
      assert txs == init + [txs[|txs| - 1]];
    }
  }

  /** Filtering by review state keeps ids distinct. */
  lemma {:induction false} WithStatusUnique(txs: seq<Txn>, s: MatchStatus)
    requires UniqueIds(txs)
    ensures UniqueIds(WithStatus(txs, s))
  {
    if txs != [] {
      var init := txs[..|txs| - 1];
      var last := txs[|txs| - 1];
      assert UniqueIds(init) by {
        forall i, j | 0 <= i < |init| && 0 <= j < |init| && i != j ensures init[i].id != init[j].id {
          assert init[i] == txs[i] && init[j] == txs[j];
        }
      }
      WithStatusUnique(init, s);
      WithStatusMembers(init, s);
      var w := WithStatus(init, s);
      if last.matchStatus == s {
        forall i | 0 <= i < |w| ensures w[i].id != last.id {
          assert w[i] in init;
          var j :| 0 <= j < |init| && init[j] == w[i];
          assert txs[j] == w[i];
        }
        var r := w + [last];
        forall i, j | 0 <= i < |r| && 0 <= j < |r| && i != j ensures r[i].id != r[j].id {
          if i < |w| && j < |w| {
            assert r[i] == w[i] && r[j] == w[j];
          } else if i < |w| {
            assert r[i] == w[i];
          } else if j < |w| {
            assert r[j] == w[j];
          }
        }
      }
    }
  }

  /** A filter by review state is empty exactly when no entry is in that state. */
  lemma {:induction false} NoneWithStatus(txs: seq<Txn>, s: MatchStatus)
    ensures WithStatus(txs, s) == [] <==> forall i :: 0 <= i < |txs| ==> txs[i].matchStatus != s
  {
    if txs != [] {
      var init := txs[..|txs| - 1];
      NoneWithStatus(init, s);
      if WithStatus(txs, s) == [] {
        forall i | 0 <= i < |txs| ensures txs[i].matchStatus != s {
          if i < |init| {
            assert txs[i] == init[i];
          }
        }
      } else {
        assert WithStatus(init, s) != [] || txs[|txs| - 1].matchStatus == s;
      }
    }
  }

  /** `findIndex(tx => tx.id === id)`: the first position holding the id, or -1. */
  function FindTxn(txs: seq<Txn>, id: string): (r: int)
    ensures -1 <= r < |txs|
    ensures r >= 0 ==> txs[r].id == id && forall k :: 0 <= k < r ==> txs[k].id != id
    ensures r < 0 <==> forall k :: 0 <= k < |txs| ==> txs[k].id != id
  {
    if txs == [] then -1
    else if txs[0].id == id then 0
    else
      var r := FindTxn(txs[1..], id);
      if r < 0 then -1 else r + 1
  }

  /**
   * `(count / total) * 100`, or 0 when there is nothing to count: the
   * percentage both the store and the statistics report, as an exact rational.
   */
  function Rate(count: nat, total: nat): real
    requires count <= total
  {
    if total > 0 then (count as real / total as real) * 100.0 else 0.0
  }

  /** A rate is a percentage: 0 when nothing is counted, 100 exactly when everything is. */
  lemma RateRange(count: nat, total: nat)
    requires count <= total
    ensures 0.0 <= Rate(count, total) <= 100.0
    ensures Rate(count, total) == 0.0 <==> count == 0 || total == 0
    ensures Rate(count, total) == 100.0 <==> 0 < total && count == total
  {
    if total > 0 {
      var q := count as real / total as real;
      assert 0.0 <= q <= 1.0;
      if q == 1.0 {
        assert count as real == total as real;
      }
    }
  }
}
