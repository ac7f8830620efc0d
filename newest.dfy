/** "Newest row first": the two ways the services read a table ordered by creation
    time descending. `Latest` is `findOne({ where, order: { createdAt: 'DESC' } })`,
    `NewestFirst` is the order `find({ order: { createdAt: 'DESC' } })` returns. The
    database leaves the order of rows with equal keys open; the model resolves a tie
    in favour of the row that comes first in store order. */
module Newest {
  import opened Common

  /** Index of the row that `ORDER BY key DESC LIMIT 1` over the rows satisfying
      `keep` returns, or None when no row satisfies `keep`. */
  function Latest<T>(s: seq<T>, keep: T -> bool, key: T -> int): (r: Option<nat>)
    ensures r.Some? ==> r.value < |s| && keep(s[r.value])
  {
    if |s| == 0 then None
    else
      var prev := Latest(s[..|s| - 1], keep, key);
      if !keep(s[|s| - 1]) then prev
      else if prev.Some? && key(s[|s| - 1]) <= key(s[prev.value]) then prev
      else Some(|s| - 1)
  }

  /** Row `i` is kept, no kept row is newer, and every kept row before it is older. */
  ghost predicate IsNewest<T>(s: seq<T>, keep: T -> bool, key: T -> int, i: nat)
  {
    && i < |s|
    && keep(s[i])
    && (forall j :: 0 <= j < |s| && keep(s[j]) ==> key(s[j]) <= key(s[i]))
    && (forall j :: 0 <= j < i && keep(s[j]) ==> key(s[j]) < key(s[i]))
  }

  /** `Latest` finds a row exactly when some row is kept, and the row it finds is the
      one and only newest row (earliest among equals). */
  lemma {:induction false} LatestIsNewest<T>(s: seq<T>, keep: T -> bool, key: T -> int)
    ensures Latest(s, keep, key).None? <==> forall j :: 0 <= j < |s| ==> !keep(s[j])
    ensures forall i: nat :: Latest(s, keep, key) == Some(i) <==> IsNewest(s, keep, key, i)
  {
    if |s| > 0 {
      var init := s[..|s| - 1];
      var last := |s| - 1;
      LatestIsNewest(init, keep, key);
      assert forall j :: 0 <= j < last ==> s[j] == init[j];
      var r := Latest(s, keep, key);
      if r.Some? {
        assert IsNewest(s, keep, key, r.value);
        forall i: nat | IsNewest(s, keep, key, i) ensures i == r.value {
          NewestIsUnique(s, keep, key, i, r.value);
        }
      }
    }
  }

  /** `Latest` looks only at which rows are kept and at their keys: two tables that
      agree on those find the same row. */
  lemma {:induction false} LatestSeesOnlyKeys<T>(s: seq<T>, u: seq<T>, keep: T -> bool, key: T -> int)
    requires |s| == |u|
    requires forall j :: 0 <= j < |s| ==> keep(s[j]) == keep(u[j]) && key(s[j]) == key(u[j])
    ensures Latest(s, keep, key) == Latest(u, keep, key)
  {
    if |s| > 0 {
      LatestSeesOnlyKeys(s[..|s| - 1], u[..|u| - 1], keep, key);
    }
  }

  lemma NewestIsUnique<T>(s: seq<T>, keep: T -> bool, key: T -> int, i: nat, k: nat)
    requires IsNewest(s, keep, key, i) && IsNewest(s, keep, key, k)
    ensures i == k
  {
  }

  /** The scan a database performs for `Latest`, one row at a time. */
  method FindLatest<T>(s: seq<T>, keep: T -> bool, key: T -> int) returns (r: Option<nat>)
    ensures r == Latest(s, keep, key)
  {
    r := None;
    var n := 0;
    while n < |s|
      invariant 0 <= n <= |s|
      invariant r == Latest(s[..n], keep, key)
    {
      assert s[..n + 1][..n] == s[..n];
      if keep(s[n]) && (r.None? || key(s[n]) > key(s[r.value])) {
        r := Some(n);
      }
      n := n + 1;
    }
    assert s[..|s|] == s;
  }

  /** Every row is at least as new as every row after it. */
  ghost predicate NewestFirst<T>(s: seq<T>, key: T -> int)
  {
    forall i, j :: 0 <= i < j < |s| ==> key(s[i]) >= key(s[j])
  }

  /** Where `x` goes in a newest-first sequence: after every row at least as new. */
  function InsertionPoint<T>(s: seq<T>, x: T, key: T -> int): (p: nat)
    requires NewestFirst(s, key)
    ensures p <= |s|
    ensures forall i :: 0 <= i < p ==> key(s[i]) >= key(x)
    ensures forall i :: p <= i < |s| ==> key(s[i]) < key(x)
  {
    if |s| == 0 || key(s[0]) < key(x) then 0
    else 1 + InsertionPoint(s[1..], x, key)
  }

  /** Inserting at the insertion point keeps the sequence newest-first. */
  lemma InsertKeepsNewestFirst<T>(s: seq<T>, x: T, key: T -> int)
    requires NewestFirst(s, key)
    ensures NewestFirst(s[..InsertionPoint(s, x, key)] + [x] + s[InsertionPoint(s, x, key)..], key)
  {
    var p := InsertionPoint(s, x, key);
    var t := s[..p] + [x] + s[p..];
    forall i, j | 0 <= i < j < |t| ensures key(t[i]) >= key(t[j]) {
      if j < p {
        assert t[i] == s[i] && t[j] == s[j];
      } else if j == p {
        assert t[i] == s[i] && t[j] == x;
      } else if i < p {
        assert t[i] == s[i] && t[j] == s[j - 1];
      } else if i == p {
        assert t[i] == x && t[j] == s[j - 1];
      } else {
        assert t[i] == s[i - 1] && t[j] == s[j - 1];
      }
    }
  }

  /** The key of the row stored under `k`, for ordering the keys of a table. */
  function KeyOf<K, T>(m: map<K, T>, key: T -> int): K -> int
  {
    k => if k in m then key(m[k]) else 0
  }

  /** `s` holds each key whose row is kept exactly once, newest row first: the rows
      `find({ where, order: { createdAt: 'DESC' } })` returns, by key. */
  ghost predicate IsListing<K(!new), T>(m: map<K, T>, keep: T -> bool, key: T -> int, s: seq<K>)
  {
    && (forall k :: k in s <==> k in m && keep(m[k]))
    && (forall i, j :: 0 <= i < j < |s| ==> s[i] != s[j])
    && NewestFirst(s, KeyOf(m, key))
  }

  /** Inserting a key not yet present keeps the keys distinct and adds just that key. */
  lemma InsertKeepsDistinct<K>(s: seq<K>, x: K, p: nat)
    requires p <= |s| && x !in s
    requires forall i, j :: 0 <= i < j < |s| ==> s[i] != s[j]
    ensures forall i, j :: 0 <= i < j < |s[..p] + [x] + s[p..]| ==> (s[..p] + [x] + s[p..])[i] != (s[..p] + [x] + s[p..])[j]
    ensures forall k :: k in s[..p] + [x] + s[p..] <==> k in s || k == x
  {
    var t := s[..p] + [x] + s[p..];
    forall i, j | 0 <= i < j < |t| ensures t[i] != t[j] {
      if j < p {
        assert t[i] == s[i] && t[j] == s[j];
      } else if j == p {
        assert t[i] == s[i] && t[j] == x;
      } else if i < p {
        assert t[i] == s[i] && t[j] == s[j - 1];
      } else if i == p {
        assert t[i] == x && t[j] == s[j - 1];
      } else {
        assert t[i] == s[i - 1] && t[j] == s[j - 1];
      }
    }
    assert s == s[..p] + s[p..];
  }

  /** Sorts the kept keys of `m` newest first by inserting them one at a time. */
  method CollectNewestFirst<K(!new), T>(m: map<K, T>, keep: T -> bool, key: T -> int) returns (s: seq<K>)
    ensures IsListing(m, keep, key, s)
  {
    s := [];
    var todo := m.Keys;
    while todo != {}
      invariant todo <= m.Keys
      invariant forall k :: k in s <==> k in m && keep(m[k]) && k !in todo
      invariant forall i, j :: 0 <= i < j < |s| ==> s[i] != s[j]
      invariant NewestFirst(s, KeyOf(m, key))
      decreases |todo|
    {
      var k :| k in todo;
      if keep(m[k]) {
        var p := InsertionPoint(s, k, KeyOf(m, key));
        InsertKeepsNewestFirst(s, k, KeyOf(m, key));
        InsertKeepsDistinct(s, k, p);
        s := s[..p] + [k] + s[p..];
      }
      todo := todo - {k};
    }
  }

  /** The page `skip`/`take` cuts out of a result list. */
  function Page<T>(s: seq<T>, skip: nat, take: nat): (r: seq<T>)
    ensures |r| == if skip >= |s| then 0 else if |s| - skip < take then |s| - skip else take
    ensures forall i :: 0 <= i < |r| ==> r[i] == s[skip + i]
  {
    if skip >= |s| then []
    else if |s| - skip < take then s[skip..]
    else s[skip..skip + take]
  }
}
