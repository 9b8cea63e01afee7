/** PHP arrays with string keys: an ordered list of (key, value) pairs in which
    every key occurs once. Assignment replaces a value in place or appends a new
    pair; `unset` removes the pair; `array_merge` lets the later array win. */
module Assoc {
  import opened Php

  ghost predicate UniqueKeys(m: seq<(string, string)>) {
    forall i, j :: 0 <= i < j < |m| ==> m[i].0 != m[j].0
  }

  type Dict = m: seq<(string, string)> | UniqueKeys(m) witness []

  predicate HasKey(m: seq<(string, string)>, k: string) {
    exists i :: 0 <= i < |m| && m[i].0 == k
  }

  /** `$m[$k]` (None when the key is absent). */
  function Get(m: Dict, k: string): (r: Option<string>)
    ensures r.None? <==> !HasKey(m, k)
    ensures r.Some? ==> exists i :: 0 <= i < |m| && m[i] == (k, r.value)
  {
    if |m| == 0 then None
    else if m[0].0 == k then Some(m[0].1)
    else
      var r := Get(m[1..], k);
      assert HasKey(m[1..], k) ==> HasKey(m, k) by {
        if HasKey(m[1..], k) {
          var i :| 0 <= i < |m[1..]| && m[1..][i].0 == k;
          assert m[i + 1].0 == k;
        }
      }
      assert HasKey(m, k) ==> HasKey(m[1..], k) by {
        if HasKey(m, k) {
          var i :| 0 <= i < |m| && m[i].0 == k;
          assert i > 0 && m[1..][i - 1].0 == k;
        }
      }
      assert r.Some? ==> exists i :: 0 <= i < |m| && m[i] == (k, r.value) by {
        if r.Some? {
          var i :| 0 <= i < |m[1..]| && m[1..][i] == (k, r.value);
          assert m[i + 1] == (k, r.value);
        }
      }
      r
  }

  /** The one value stored under a key. */
  lemma GetAt(m: Dict, i: nat)
    requires i < |m|
    ensures Get(m, m[i].0) == Some(m[i].1)
  {
    var r := Get(m, m[i].0);
    var j :| 0 <= j < |m| && m[j] == (m[i].0, r.value);
    assert i == j;
  }

  /** `$m[$k] = $v`: overwrite in place when the key exists, otherwise append. */
  function Put(m: Dict, k: string, v: string): (r: Dict)
    ensures Get(r, k) == Some(v)
    ensures forall j :: j != k ==> Get(r, j) == Get(m, j)
    ensures HasKey(m, k) ==> |r| == |m| && forall i :: 0 <= i < |m| ==> r[i].0 == m[i].0
    ensures !HasKey(m, k) ==> r == m + [(k, v)]
  {
    if HasKey(m, k) then
      var i :| 0 <= i < |m| && m[i].0 == k;
      ReplaceFacts(m, i, v);
      m[i := (k, v)]
    else
      AppendFacts(m, k, v);
      m + [(k, v)]
  }

  /** Replacing the value at position i keeps the keys unique, stores the value
      under that key and leaves every other key's value. */
  lemma ReplaceFacts(m: Dict, i: nat, v: string)
    requires i < |m|
    ensures UniqueKeys(m[i := (m[i].0, v)])
    ensures Get(m[i := (m[i].0, v)], m[i].0) == Some(v)
    ensures forall j :: j != m[i].0 ==> Get(m[i := (m[i].0, v)], j) == Get(m, j)
  {
    var k := m[i].0;
    var r: Dict := m[i := (k, v)];
    GetAt(r, i);
    forall j | j != k
      ensures Get(r, j) == Get(m, j)
    {
      if HasKey(m, j) {
        var t :| 0 <= t < |m| && m[t].0 == j;
        GetAt(m, t);
        GetAt(r, t);
      } else {
        assert !HasKey(r, j);
      }
    }
  }

  /** Appending a new key keeps the keys unique, stores the value under it and
      leaves every other key's value. */
  lemma AppendFacts(m: Dict, k: string, v: string)
    requires !HasKey(m, k)
    ensures UniqueKeys(m + [(k, v)])
    ensures Get(m + [(k, v)], k) == Some(v)
    ensures forall j :: j != k ==> Get(m + [(k, v)], j) == Get(m, j)
  {
    var r: Dict := m + [(k, v)];
    GetAt(r, |m|);
    forall j | j != k
      ensures Get(r, j) == Get(m, j)
    {
      if HasKey(m, j) {
        var t :| 0 <= t < |m| && m[t].0 == j;
        GetAt(m, t);
        GetAt(r, t);
      } else {
        assert !HasKey(r, j);
      }
    }
  }

  /** `unset($m[$k])`. */
  function Remove(m: Dict, k: string): (r: Dict)
    ensures !HasKey(r, k)
    ensures forall j :: j != k ==> Get(r, j) == Get(m, j)
    ensures !HasKey(m, k) ==> r == m
  {
    if |m| == 0 then m
    else
      var rest := Remove(m[1..], k);
      if m[0].0 == k then
        assert !HasKey(m[1..], k);
        assert rest == m[1..];
        forall j | j != k
          ensures Get(rest, j) == Get(m, j)
        {
          assert Get(m, j) == Get(m[1..], j);
        }
        rest
      else
        var r := [m[0]] + rest;
        assert UniqueKeys(r) by {
          assert !HasKey(rest, m[0].0) by {
            assert !HasKey(m[1..], m[0].0);
            assert Get(rest, m[0].0) == Get(m[1..], m[0].0);
          }
        }
        assert !HasKey(r, k);
        forall j | j != k
          ensures Get(r, j) == Get(m, j)
        {
          if j != m[0].0 {
            assert Get(r, j) == Get(rest, j);
          }
        }
        assert !HasKey(m, k) ==> r == m;
        r
  }

  /** `array_merge($a, $b)` for string keys: the pairs of `a` in their order, each
      overwritten in place by `b`'s value, then `b`'s new keys in `b`'s order. */
  function Merge(a: Dict, b: Dict): (r: Dict)
    ensures |a| <= |r| <= |a| + |b|
    decreases |b|
  {
    if |b| == 0 then a else Merge(Put(a, b[0].0, b[0].1), b[1..])
  }

  /** The first key of an array occurs nowhere after it. */
  lemma HeadKeyNotInTail(b: Dict)
    requires |b| > 0
    ensures !HasKey(b[1..], b[0].0)
  {
    forall j | 0 <= j < |b| - 1
      ensures b[1..][j].0 != b[0].0
    {
      assert b[1..][j] == b[j + 1];
    }
  }

  /** Looking up a key other than the first one looks it up in the rest. */
  lemma TailLookup(b: Dict, k: string)
    requires |b| > 0 && b[0].0 != k
    ensures HasKey(b, k) <==> HasKey(b[1..], k)
    ensures Get(b, k) == Get(b[1..], k)
  {
    if HasKey(b, k) {
      var i :| 0 <= i < |b| && b[i].0 == k;
      assert b[1..][i - 1] == b[i];
    }
    if HasKey(b[1..], k) {
      var i :| 0 <= i < |b| - 1 && b[1..][i].0 == k;
      assert b[i + 1] == b[1..][i];
    }
  }

  /** The later array wins on every key it holds; every other key keeps the earlier value. */
  lemma {:induction false} MergeGet(a: Dict, b: Dict, k: string)
    ensures Get(Merge(a, b), k) == if HasKey(b, k) then Get(b, k) else Get(a, k)
    decreases |b|
  {
    if |b| > 0 {
      var a' := Put(a, b[0].0, b[0].1);
      MergeGet(a', b[1..], k);
      if b[0].0 == k {
        HeadKeyNotInTail(b);
      } else {
        TailLookup(b, k);
      }
    }
  }

  /** A key is in the merge exactly when it is in one of the two arrays. */
  lemma MergeHasKey(a: Dict, b: Dict, k: string)
    ensures HasKey(Merge(a, b), k) <==> HasKey(a, k) || HasKey(b, k)
  {
    MergeGet(a, b, k);
  }

  /** Merging keeps the keys of the earlier array where they were. */
  lemma {:induction false} MergeKeepsOrder(a: Dict, b: Dict)
    ensures forall i :: 0 <= i < |a| ==> Merge(a, b)[i].0 == a[i].0
    decreases |b|
  {
    if |b| > 0 {
      MergeKeepsOrder(Put(a, b[0].0, b[0].1), b[1..]);
    }
  }
}
