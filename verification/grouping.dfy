/** Group-by in the manner of `grouped.setdefault(key, []).append(row)` over
    a Python dict: groups are visited in the order their key first occurs, each
    group keeps the input order of its rows, and a row whose key is empty is
    never grouped. */
module Grouping {

  /** The keys of `rows` in order of first occurrence, without the empty key. */
  function Keys<T>(rows: seq<T>, key: T -> string): (ks: seq<string>)
    ensures forall i, j :: 0 <= i < j < |ks| ==> ks[i] != ks[j]
    ensures forall i :: 0 <= i < |ks| ==> ks[i] != ""
  {
    if rows == [] then []
    else
      var ks := Keys(rows[..|rows| - 1], key);
      var k := key(rows[|rows| - 1]);
      if k == "" || k in ks then ks else ks + [k]
  }

  /** The rows with key `k`, in input order. */
  function Members<T>(rows: seq<T>, key: T -> string, k: string): (m: seq<T>)
    ensures |m| <= |rows|
    ensures forall j :: 0 <= j < |m| ==> key(m[j]) == k
  {
    if rows == [] then []
    else
      Members(rows[..|rows| - 1], key, k)
        + (if key(rows[|rows| - 1]) == k then [rows[|rows| - 1]] else [])
  }

  /** The rows that have a key, in input order. */
  function KeyedRows<T>(rows: seq<T>, key: T -> string): (m: seq<T>)
    ensures forall j :: 0 <= j < |m| ==> key(m[j]) != ""
  {
    if rows == [] then []
    else
      KeyedRows(rows[..|rows| - 1], key)
        + (if key(rows[|rows| - 1]) != "" then [rows[|rows| - 1]] else [])
  }

  /** The groups of `ks`, one after the other. */
  function Flatten<T>(rows: seq<T>, key: T -> string, ks: seq<string>): seq<T>
  {
    if ks == [] then []
    else Flatten(rows, key, ks[..|ks| - 1]) + Members(rows, key, ks[|ks| - 1])
  }

  /** A key is a group's key exactly when it is non-empty and some row has it. */
  lemma {:induction false} KeysComplete<T>(rows: seq<T>, key: T -> string, k: string)
    ensures k in Keys(rows, key) <==> k != "" && exists i :: 0 <= i < |rows| && key(rows[i]) == k
  {
    if rows != [] {
      var init := rows[..|rows| - 1];
      KeysComplete(init, key, k);
      if k in Keys(init, key) {
        var i :| 0 <= i < |init| && key(init[i]) == k;
        assert key(rows[i]) == k;
      }
      if exists i :: 0 <= i < |rows| && key(rows[i]) == k {
        var i :| 0 <= i < |rows| && key(rows[i]) == k;
        if i < |init| {
          assert key(init[i]) == k;
        }
      }
    }
  }

  /** The keys come in order of first occurrence: any row with a later key
      is preceded by a row with each earlier key. */
  lemma {:induction false} KeysInFirstOccurrenceOrder<T>(rows: seq<T>, key: T -> string, i: nat, j: nat, q: nat)
    requires i < j < |Keys(rows, key)|
    requires q < |rows| && key(rows[q]) == Keys(rows, key)[j]
    ensures exists p :: 0 <= p < q && key(rows[p]) == Keys(rows, key)[i]
  {
    var init := rows[..|rows| - 1];
    var ks := Keys(rows, key);
    var pre := Keys(init, key);
    assert forall t :: 0 <= t < |pre| ==> ks[t] == pre[t];
    if q < |init| {
      assert key(init[q]) == ks[j];
      KeysComplete(init, key, ks[j]);
      assert j < |pre|;
      KeysInFirstOccurrenceOrder(init, key, i, j, q);
      var p :| 0 <= p < q && key(init[p]) == pre[i];
      assert key(rows[p]) == ks[i];
    } else if j < |pre| {
      KeysComplete(init, key, ks[j]);
      var q' :| 0 <= q' < |init| && key(init[q']) == pre[j];
      KeysInFirstOccurrenceOrder(init, key, i, j, q');
      var p :| 0 <= p < q' && key(init[p]) == pre[i];
      assert key(rows[p]) == ks[i];
    } else {
      KeysComplete(init, key, pre[i]);
      var p :| 0 <= p < |init| && key(init[p]) == pre[i];
      assert key(rows[p]) == ks[i];
    }
  }

  /** A row belongs to group `k` exactly when it is one of the rows and has key `k`. */
  lemma {:induction false} MembersExactly<T>(rows: seq<T>, key: T -> string, k: string, x: T)
    ensures x in Members(rows, key, k) <==> x in rows && key(x) == k
  {
    if rows != [] {
      var init := rows[..|rows| - 1];
      MembersExactly(init, key, k, x);
      assert rows == init + [rows[|rows| - 1]];
    }
  }

  /** Grouping keeps the input order: the group of a concatenation is the
      concatenation of the groups. */
  lemma {:induction false} MembersAppend<T>(a: seq<T>, b: seq<T>, key: T -> string, k: string)
    ensures Members(a + b, key, k) == Members(a, key, k) + Members(b, key, k)
  {
    if b != [] {
      var initB := b[..|b| - 1];
      assert (a + b)[..|a + b| - 1] == a + initB;
      MembersAppend(a, initB, key, k);
    } else {
      assert a + b == a;
    }
  }

  /** A non-empty key that no row has has an empty group. */
  lemma MembersOfAbsentKey<T>(rows: seq<T>, key: T -> string, k: string)
    requires k != "" && k !in Keys(rows, key)
    ensures Members(rows, key, k) == []
  {
    KeysComplete(rows, key, k);
    if Members(rows, key, k) != [] {
      var x := Members(rows, key, k)[0];
      MembersExactly(rows, key, k, x);
      assert false;
    }
  }

  lemma {:induction false} FlattenWithoutKey<T>(rows: seq<T>, x: T, key: T -> string, ks: seq<string>)
    requires key(x) !in ks
    ensures Flatten(rows + [x], key, ks) == Flatten(rows, key, ks)
  {
    if ks != [] {
      FlattenWithoutKey(rows, x, key, ks[..|ks| - 1]);
      assert (rows + [x])[..|rows + [x]| - 1] == rows;
    }
  }

  lemma {:induction false} FlattenWithKey<T>(rows: seq<T>, x: T, key: T -> string, ks: seq<string>)
    requires key(x) in ks
    requires forall i, j :: 0 <= i < j < |ks| ==> ks[i] != ks[j]
    ensures multiset(Flatten(rows + [x], key, ks)) == multiset(Flatten(rows, key, ks)) + multiset{x}
  {
    var init := ks[..|ks| - 1];
    var last := ks[|ks| - 1];
    assert (rows + [x])[..|rows + [x]| - 1] == rows;
    if key(x) == last {
      assert key(x) !in init;
      FlattenWithoutKey(rows, x, key, init);
    } else {
      assert key(x) in init;
      FlattenWithKey(rows, x, key, init);
    }
  }

  /** Partition and coverage: the groups hold exactly the keyed rows, each once. */
  lemma {:induction false} GroupsCoverKeyedRows<T>(rows: seq<T>, key: T -> string)
    ensures multiset(Flatten(rows, key, Keys(rows, key))) == multiset(KeyedRows(rows, key))
  {
    if rows != [] {
      var init := rows[..|rows| - 1];
      var x := rows[|rows| - 1];
      var ks := Keys(init, key);
      assert rows == init + [x];
      GroupsCoverKeyedRows(init, key);
      if key(x) == "" {
        FlattenWithoutKey(init, x, key, ks);
      } else if key(x) in ks {
        FlattenWithKey(init, x, key, ks);
      } else {
        FlattenWithoutKey(init, x, key, ks);
        MembersOfAbsentKey(init, key, key(x));
      }
    }
  }

  /** `keys` and `groups` are what the dict holds after grouping `rows`. */
  ghost predicate GroupsOf<T>(rows: seq<T>, key: T -> string, keys: seq<string>, groups: map<string, seq<T>>)
  {
    && keys == Keys(rows, key)
    && groups.Keys == set k | k in keys
    && forall k :: k in groups ==> groups[k] == Members(rows, key, k)
  }

  /** A row without a key leaves the groups as they are. */
  lemma GroupsOfSkip<T>(rows: seq<T>, x: T, key: T -> string, keys: seq<string>, groups: map<string, seq<T>>)
    requires key(x) == ""
    requires GroupsOf(rows, key, keys, groups)
    ensures GroupsOf(rows + [x], key, keys, groups)
  {
    assert (rows + [x])[..|rows|] == rows;
  }

  /** One more row joins the end of its own group only. */
  lemma MembersSnoc<T>(rows: seq<T>, x: T, key: T -> string, k: string)
    ensures Members(rows + [x], key, k) == Members(rows, key, k) + (if key(x) == k then [x] else [])
  {
    assert (rows + [x])[..|rows|] == rows;
  }

  /** One more row adds its key at the end, unless it is empty or already seen. */
  lemma KeysSnoc<T>(rows: seq<T>, x: T, key: T -> string)
    ensures Keys(rows + [x], key)
      == if key(x) == "" || key(x) in Keys(rows, key) then Keys(rows, key) else Keys(rows, key) + [key(x)]
  {
    assert (rows + [x])[..|rows|] == rows;
  }

  /** `grouped.setdefault(key(x), []).append(x)`: a new key opens a group at
      the end, a known one gets `x` appended to its group. */
  method AddToGroup<T>(rows: seq<T>, x: T, key: T -> string, keys: seq<string>, groups: map<string, seq<T>>)
    returns (keys': seq<string>, groups': map<string, seq<T>>)
    requires key(x) != ""
    requires GroupsOf(rows, key, keys, groups)
    ensures GroupsOf(rows + [x], key, keys', groups')
  {
    var k := key(x);
    KeysSnoc(rows, x, key);
    if k in groups {
      keys', groups' := keys, groups[k := groups[k] + [x]];
    } else {
      MembersOfAbsentKey(rows, key, k);
      keys', groups' := keys + [k], groups[k := [x]];
      assert (set k' | k' in keys') == (set k' | k' in keys) + {k};
    }
    forall k' | k' in groups'
      ensures groups'[k'] == Members(rows + [x], key, k')
    {
      MembersSnoc(rows, x, key, k');
    }
  }

  /** Builds the groups the way the source's dict does. */
  method GroupBy<T>(rows: seq<T>, key: T -> string) returns (keys: seq<string>, groups: map<string, seq<T>>)
    ensures keys == Keys(rows, key)
    ensures groups.Keys == set k | k in keys
    ensures forall k :: k in groups ==> groups[k] == Members(rows, key, k)
  {
    keys, groups := [], map[];
    for i := 0 to |rows|
      invariant GroupsOf(rows[..i], key, keys, groups)
    {
      assert rows[..i + 1] == rows[..i] + [rows[i]];
      if key(rows[i]) != "" {
        keys, groups := AddToGroup(rows[..i], rows[i], key, keys, groups);
      } else {
        GroupsOfSkip(rows[..i], rows[i], key, keys, groups);
      }
    }
    assert rows[..|rows|] == rows;
  }
}
