/**
 * Turning the fetched rows into one mapping per row (main.py, lines 162-164):
 *   columns = [desc[0] for desc in cur.description]
 *   results = [dict(zip(columns, row)) for row in rows]
 * `V` is the driver's scalar value type, left opaque.
 */
module Rows {

  function Min(a: nat, b: nat): nat
  {
    if a <= b then a else b
  }

  /** Python's `zip`: pairs up positions and stops at the shorter sequence. */
  function Zip<K, V>(ks: seq<K>, vs: seq<V>): (ps: seq<(K, V)>)
    ensures |ps| == Min(|ks|, |vs|)
    ensures forall k :: 0 <= k < |ps| ==> ps[k] == (ks[k], vs[k])
  {
    if ks == [] || vs == [] then [] else [(ks[0], vs[0])] + Zip(ks[1..], vs[1..])
  }

  /** No pair after position `k` has the same key as position `k`. */
  predicate LastWithKey<K(==), V>(ps: seq<(K, V)>, k: nat)
    requires k < |ps|
  {
    forall m :: k < m < |ps| ==> ps[m].0 != ps[k].0
  }

  /**
   * Python's `dict(pairs)`: the keys are the keys of the pairs, and a key that
   * occurs more than once keeps the value of its last pair.
   */
  function DictOf<K(==), V>(ps: seq<(K, V)>): (d: map<K, V>)
    ensures d.Keys == set k | 0 <= k < |ps| :: ps[k].0
    ensures forall k :: 0 <= k < |ps| && LastWithKey(ps, k) ==> d[ps[k].0] == ps[k].1
  {
    if ps == [] then map[]
    else
      var init := ps[..|ps| - 1];
      var last := ps[|ps| - 1];
      var d := DictOf(init)[last.0 := last.1];
      assert ps == init + [last];
      KeysOfSnoc(init, last);
      LastWithKeyInit(init, last);
      d
  }

  /** The keys of `init + [last]`: those of `init`, and the key of `last`. */
  lemma KeysOfSnoc<K, V>(init: seq<(K, V)>, last: (K, V))
    ensures (set k | 0 <= k < |init + [last]| :: (init + [last])[k].0) == (set k | 0 <= k < |init| :: init[k].0) + {last.0}
  {
    var ps := init + [last];
    assert forall k :: 0 <= k < |init| ==> ps[k] == init[k];
    assert ps[|init|] == last;
  }

  /** A position of `init` that is last with its key in `init + [last]` is last in `init` too. */
  lemma LastWithKeyInit<K, V>(init: seq<(K, V)>, last: (K, V))
    ensures forall k :: 0 <= k < |init| && LastWithKey(init + [last], k) ==>
      LastWithKey(init, k) && init[k].0 != last.0
  {
    var ps := init + [last];
    forall k | 0 <= k < |init| && LastWithKey(ps, k) ensures LastWithKey(init, k) && init[k].0 != last.0 {
      assert ps[k] == init[k] && ps[|init|] == last;
      assert forall m :: k < m < |init| ==> ps[m] == init[m];
    }
  }

  /** One row as a mapping from column name to value: `dict(zip(columns, row))`. */
  function RowToMap<V>(columns: seq<string>, row: seq<V>): (m: map<string, V>)
    ensures m.Keys == set k | 0 <= k < Min(|columns|, |row|) :: columns[k]
  {
    var ps := Zip(columns, row);
    assert (set k | 0 <= k < |ps| :: ps[k].0) == set k | 0 <= k < Min(|columns|, |row|) :: columns[k];
    DictOf(ps)
  }

  /** The whole list comprehension: one mapping per fetched row, in fetch order. */
  function Materialise<V>(columns: seq<string>, rows: seq<seq<V>>): (results: seq<map<string, V>>)
    ensures |results| == |rows|
    ensures forall r :: 0 <= r < |rows| ==> results[r] == RowToMap(columns, rows[r])
  {
    if rows == [] then [] else [RowToMap(columns, rows[0])] + Materialise(columns, rows[1..])
  }

  /**
   * A column name maps to the value at the last position, among the zipped ones,
   * that carries that name.
   */
  lemma RowToMapLastWins<V>(columns: seq<string>, row: seq<V>, k: nat)
    requires k < Min(|columns|, |row|)
    requires forall m :: k < m < Min(|columns|, |row|) ==> columns[m] != columns[k]
    ensures columns[k] in RowToMap(columns, row)
    ensures RowToMap(columns, row)[columns[k]] == row[k]
  {
    var ps := Zip(columns, row);
    assert ps[k] == (columns[k], row[k]);
    assert LastWithKey(ps, k);
  }

  /** Column names are pairwise different. */
  predicate Distinct(columns: seq<string>)
  {
    forall a, b :: 0 <= a < b < |columns| ==> columns[a] != columns[b]
  }

  /**
   * A row as long as the column list, with distinct column names: every column
   * maps to the value at its own position, and there are no other keys.
   */
  lemma RowToMapAligned<V>(columns: seq<string>, row: seq<V>)
    requires |row| == |columns| && Distinct(columns)
    ensures RowToMap(columns, row).Keys == set c | c in columns
    ensures forall k :: 0 <= k < |columns| ==> RowToMap(columns, row)[columns[k]] == row[k]
  {
    forall k | 0 <= k < |columns| ensures RowToMap(columns, row)[columns[k]] == row[k] {
      RowToMapLastWins(columns, row, k);
    }
    assert (set k | 0 <= k < |columns| :: columns[k]) == set c | c in columns;
  }

  /** With a duplicated column name, the later of two positions wins. */
  lemma RowToMapDuplicate<V>(columns: seq<string>, row: seq<V>, i: nat, j: nat)
    requires i < j < Min(|columns|, |row|) && columns[i] == columns[j]
    requires forall m :: j < m < Min(|columns|, |row|) ==> columns[m] != columns[j]
    ensures RowToMap(columns, row)[columns[i]] == row[j]
  {
    RowToMapLastWins(columns, row, j);
  }
}
