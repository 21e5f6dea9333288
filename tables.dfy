/** A database table keyed by a numeric primary key, seen as a finite map, and the full scans
    over it that the repositories' list queries perform. Rows come back in ascending key order. */
module Tables {

  predicate Increasing(ks: seq<int>) {
    forall i, j :: 0 <= i < j < |ks| ==> ks[i] < ks[j]
  }

  ghost predicate IsMin(m: int, s: set<int>) {
    m in s && forall x :: x in s ==> m <= x
  }

  lemma {:induction false} MinExists(s: set<int>)
    requires s != {}
    ensures exists m :: IsMin(m, s)
  {
    if forall z :: z !in s { assert false; }
    var x :| x in s;
    if s != {x} {
      assert forall z :: z in s ==> z == x || z in s - {x};
      MinExists(s - {x});
      var y :| IsMin(y, s - {x});
      if x < y { assert IsMin(x, s); } else { assert IsMin(y, s); }
    } else {
      assert IsMin(x, s);
    }
  }

  /** A value of a table is stored under some key. */
  lemma ValueHasKey<T>(m: map<int, T>, v: T)
    requires v in m.Values
    ensures exists k :: k in m && m[k] == v
  {
    if forall k :: k in m ==> m[k] != v { assert false; }
  }

  /** The smallest key of a non-empty key set. */
  function MinOf(s: set<int>): (m: int)
    requires s != {}
    ensures m in s && forall x :: x in s ==> m <= x
  {
    MinExists(s);
    var m :| m in s && forall x :: x in s ==> m <= x; m
  }

  /** The keys of `s` in ascending order, each once. */
  function SortedKeys(s: set<int>): (ks: seq<int>)
    ensures Increasing(ks)
    ensures forall k :: k in ks <==> k in s
    decreases |s|
  {
    if s == {} then []
    else
      var m := MinOf(s);
      var rest := SortedKeys(s - {m});
      assert forall k :: k in rest ==> m < k;
      [m] + rest
  }

  /** The keys of `ks`, in their order, whose rows satisfy `keep`. */
  function Keep<T>(m: map<int, T>, ks: seq<int>, keep: T -> bool): (r: seq<int>)
    requires forall i :: 0 <= i < |ks| ==> ks[i] in m
    ensures forall k :: k in r <==> k in ks && keep(m[k])
  {
    if ks == [] then []
    else
      var rest := Keep(m, ks[1..], keep);
      if keep(m[ks[0]]) then [ks[0]] + rest else rest
  }

  /** In an increasing key sequence the first key is below all the others. */
  lemma HeadBelowTail(ks: seq<int>)
    requires Increasing(ks) && ks != []
    ensures forall k :: k in ks[1..] ==> ks[0] < k
  {
    forall k | k in ks[1..] ensures ks[0] < k {
      var j :| 0 <= j < |ks[1..]| && ks[1..][j] == k;
      assert ks[j + 1] == k;
    }
  }

  /** A key below all keys of an increasing sequence can be put in front of it. */
  lemma ConsIncreasing(k0: int, rest: seq<int>)
    requires Increasing(rest) && forall k :: k in rest ==> k0 < k
    ensures Increasing([k0] + rest)
  {
    var r := [k0] + rest;
    forall i, j | 0 <= i < j < |r| ensures r[i] < r[j] {
      assert r[j] == rest[j - 1] && rest[j - 1] in rest;
      if i > 0 { assert r[i] == rest[i - 1]; }
    }
  }

  /** Filtering keeps keys in increasing order. */
  lemma {:induction false} KeepIncreasing<T>(m: map<int, T>, ks: seq<int>, keep: T -> bool)
    requires forall i :: 0 <= i < |ks| ==> ks[i] in m
    requires Increasing(ks)
    ensures Increasing(Keep(m, ks, keep))
  {
    if ks != [] {
      assert Increasing(ks[1..]);
      KeepIncreasing(m, ks[1..], keep);
      HeadBelowTail(ks);
      var rest := Keep(m, ks[1..], keep);
      if keep(m[ks[0]]) {
        ConsIncreasing(ks[0], rest);
      }
    }
  }

  /** The keys of the rows a scan with the condition `keep` selects. */
  function SelectKeys<T>(m: map<int, T>, keep: T -> bool): (ks: seq<int>)
    ensures Increasing(ks)
    ensures forall k :: k in ks <==> k in m && keep(m[k])
  {
    var all := SortedKeys(m.Keys);
    assert forall i :: 0 <= i < |all| ==> all[i] in m by {
      forall i | 0 <= i < |all| ensures all[i] in m { assert all[i] in all; }
    }
    KeepIncreasing(m, all, keep);
    Keep(m, all, keep)
  }

  /** The rows stored under the keys `ks`, in that order. */
  function RowsAt<T>(m: map<int, T>, ks: seq<int>): (r: seq<T>)
    requires forall i :: 0 <= i < |ks| ==> ks[i] in m
    ensures |r| == |ks| && forall i :: 0 <= i < |r| ==> r[i] == m[ks[i]]
  {
    seq(|ks|, i requires 0 <= i < |ks| => m[ks[i]])
  }

  lemma SelectedRowsQualify<T>(m: map<int, T>, keep: T -> bool, r: seq<T>)
    requires forall i :: 0 <= i < |SelectKeys(m, keep)| ==> SelectKeys(m, keep)[i] in m
    requires r == RowsAt(m, SelectKeys(m, keep))
    ensures forall i :: 0 <= i < |r| ==> r[i] in m.Values && keep(r[i])
  {
    var ks := SelectKeys(m, keep);
    forall i | 0 <= i < |r| ensures r[i] in m.Values && keep(r[i]) {
      assert ks[i] in ks;
    }
  }

  lemma QualifyingRowsSelected<T>(m: map<int, T>, keep: T -> bool, r: seq<T>)
    requires forall i :: 0 <= i < |SelectKeys(m, keep)| ==> SelectKeys(m, keep)[i] in m
    requires r == RowsAt(m, SelectKeys(m, keep))
    ensures forall k :: k in m && keep(m[k]) ==> m[k] in r
  {
    var ks := SelectKeys(m, keep);
    forall k | k in m && keep(m[k]) ensures m[k] in r {
      var i :| 0 <= i < |ks| && ks[i] == k;
      assert r[i] == m[k];
    }
  }

  /** `SELECT row FROM m WHERE keep(row)`: every selected row once, walked in key order. */
  function Select<T(==)>(m: map<int, T>, keep: T -> bool): (r: seq<T>)
    ensures |r| == |SelectKeys(m, keep)|
    ensures forall i :: 0 <= i < |r| ==> r[i] == m[SelectKeys(m, keep)[i]]
    ensures forall i :: 0 <= i < |r| ==> r[i] in m.Values && keep(r[i])
    ensures forall k :: k in m && keep(m[k]) ==> m[k] in r
  {
    var ks := SelectKeys(m, keep);
    assert forall i :: 0 <= i < |ks| ==> ks[i] in m by {
      forall i | 0 <= i < |ks| ensures ks[i] in m { assert ks[i] in ks; }
    }
    var r := RowsAt(m, ks);
    SelectedRowsQualify(m, keep, r);
    QualifyingRowsSelected(m, keep, r);
    r
  }

  /** When every row is stored under its own key, a selection comes back in ascending key order. */
  lemma SelectAscendsByKey<T>(m: map<int, T>, keep: T -> bool, key: T -> int)
    ensures (forall k :: k in m ==> key(m[k]) == k) ==>
              var r := Select(m, keep);
              forall i, j :: 0 <= i < j < |r| ==> key(r[i]) < key(r[j])
  {
    if forall k :: k in m ==> key(m[k]) == k {
      var ks := SelectKeys(m, keep);
      var r := Select(m, keep);
      forall i, j | 0 <= i < j < |r| ensures key(r[i]) < key(r[j]) {
        assert ks[i] in ks && ks[j] in ks;
      }
    }
  }
}
