/**
 * The ordering step of MaxFeeTxHandler: candidates sorted by ascending fee,
 * each fee taken against the pool as it stands before the pass.
 */
module FeeOrder {
  import opened Ledger
  import opened Validation
  import opened Settlement

  /** `s` is in non-decreasing order of `key`. */
  predicate SortedBy(key: Transaction -> int, s: seq<Transaction>) {
    forall i, j :: 0 <= i < j < |s| ==> key(s[i]) <= key(s[j])
  }

  /** Inserts `tx` before the first element whose key is not below its own. */
  function InsertBy(key: Transaction -> int, tx: Transaction, s: seq<Transaction>): (r: seq<Transaction>)
    requires SortedBy(key, s)
    ensures SortedBy(key, r)
    ensures multiset(r) == multiset(s) + multiset{tx}
    decreases |s|
  {
    if s == [] || key(tx) <= key(s[0]) then [tx] + s
    else
      var rest := InsertBy(key, tx, s[1..]);
      assert s == [s[0]] + s[1..];
      InsertedAboveHead(key, tx, s, rest);
      [s[0]] + rest
  }

  /** After `tx` is inserted into the tail of `s`, everything there is still at or above the head's key. */
  lemma InsertedAboveHead(key: Transaction -> int, tx: Transaction, s: seq<Transaction>, rest: seq<Transaction>)
    requires SortedBy(key, s) && s != [] && key(s[0]) < key(tx)
    requires multiset(rest) == multiset(s[1..]) + multiset{tx}
    ensures forall k :: 0 <= k < |rest| ==> key(s[0]) <= key(rest[k])
  {
    forall k | 0 <= k < |rest| ensures key(s[0]) <= key(rest[k]) {
      var x := rest[k];
      assert x in multiset(rest);
      if x != tx {
        assert x in multiset(s[1..]);
        var m :| 0 <= m < |s[1..]| && s[1..][m] == x;
        assert s[m + 1] == x;
      }
    }
  }

  /** A permutation of `txs` in non-decreasing order of `key`; elements of equal key keep their order. */
  function SortBy(key: Transaction -> int, txs: seq<Transaction>): (r: seq<Transaction>)
    ensures SortedBy(key, r)
    ensures multiset(r) == multiset(txs)
    decreases |txs|
  {
    if txs == [] then []
    else
      assert txs == [txs[0]] + txs[1..];
      InsertBy(key, txs[0], SortBy(key, txs[1..]))
  }

  /** The elements of `s` whose key is `v`, in order. */
  function WithKey(key: Transaction -> int, v: int, s: seq<Transaction>): seq<Transaction>
    decreases |s|
  {
    if s == [] then [] else (if key(s[0]) == v then [s[0]] else []) + WithKey(key, v, s[1..])
  }

  /** `WithKey` of a sequence with a given head. */
  lemma WithKeyCons(key: Transaction -> int, v: int, x: Transaction, s: seq<Transaction>)
    ensures WithKey(key, v, [x] + s) == (if key(x) == v then [x] else []) + WithKey(key, v, s)
  {
    assert ([x] + s)[0] == x && ([x] + s)[1..] == s;
  }

  /** Inserting puts `tx` ahead of every element of equal key and leaves their order alone. */
  lemma {:induction false} InsertByStable(key: Transaction -> int, v: int, tx: Transaction, s: seq<Transaction>)
    requires SortedBy(key, s)
    ensures WithKey(key, v, InsertBy(key, tx, s)) == (if key(tx) == v then [tx] else []) + WithKey(key, v, s)
    decreases |s|
  {
    if s == [] || key(tx) <= key(s[0]) {
      WithKeyCons(key, v, tx, s);
    } else {
      var rest := InsertBy(key, tx, s[1..]);
      InsertByStable(key, v, tx, s[1..]);
      WithKeyCons(key, v, s[0], rest);
      WithKeyCons(key, v, s[0], s[1..]);
      assert s == [s[0]] + s[1..];
      // s[0]'s key is below tx's, so at most one of the two has key v
      if key(tx) == v {
        assert key(s[0]) != v;
      }
    }
  }

  /** Sorting is stable: the elements of any one key come out in the order they went in. */
  lemma {:induction false} SortByStable(key: Transaction -> int, v: int, txs: seq<Transaction>)
    ensures WithKey(key, v, SortBy(key, txs)) == WithKey(key, v, txs)
    decreases |txs|
  {
    if txs != [] {
      SortByStable(key, v, txs[1..]);
      InsertByStable(key, v, txs[0], SortBy(key, txs[1..]));
    }
  }

  /** The comparator's key: a candidate's fee against `pool`. */
  function FeeKey(pool: map<UTXO, Output>): Transaction -> int {
    tx => Fee(pool, tx)
  }

  /** The candidates in the order the fee comparator puts them, fees taken against `pool`. */
  function SortByFee(pool: map<UTXO, Output>, txs: seq<Transaction>): seq<Transaction> {
    SortBy(FeeKey(pool), txs)
  }

  /** The sorted candidates are a permutation of the candidates, in non-decreasing order of fee. */
  lemma SortByFeeSortsAndPermutes(pool: map<UTXO, Output>, txs: seq<Transaction>)
    ensures var r := SortByFee(pool, txs);
      && multiset(r) == multiset(txs)
      && forall i, j :: 0 <= i < j < |r| ==> Fee(pool, r[i]) <= Fee(pool, r[j])
  {
    var r := SortByFee(pool, txs);
    forall i, j | 0 <= i < j < |r| ensures Fee(pool, r[i]) <= Fee(pool, r[j]) {
      assert FeeKey(pool)(r[i]) <= FeeKey(pool)(r[j]);
    }
  }

  /** Dropping elements from a sorted sequence leaves it sorted. */
  lemma {:induction false} SubsequenceKeepsOrder(key: Transaction -> int, a: seq<Transaction>, b: seq<Transaction>)
    requires Subsequence(a, b) && SortedBy(key, b)
    ensures SortedBy(key, a)
    ensures multiset(a) <= multiset(b)
    decreases |b|
  {
    if a != [] {
      var b' := b[..|b| - 1];
      assert b == b' + [b[|b| - 1]];
      assert SortedBy(key, b');
      if a[|a| - 1] == b[|b| - 1] && Subsequence(a[..|a| - 1], b') {
        var a' := a[..|a| - 1];
        SubsequenceKeepsOrder(key, a', b');
        assert a == a' + [a[|a| - 1]];
        forall i, j | 0 <= i < j < |a| ensures key(a[i]) <= key(a[j]) {
          if j == |a| - 1 {
            assert a[i] in multiset(b');
            var k :| 0 <= k < |b'| && b'[k] == a[i];
          } else {
            assert a[i] == a'[i] && a[j] == a'[j];
          }
        }
      } else {
        SubsequenceKeepsOrder(key, a, b');
      }
    }
  }
}
