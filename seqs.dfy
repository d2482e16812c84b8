/** Sequence operations that stand for pandas' row filters and
    `drop_duplicates(key, keep="first"|"last")`, with the facts the pipeline
    relies on: order is kept, one row per key survives, and which one. */
module Seqs {

  /** `r` is `s` with some elements removed, the rest in their original order. */
  predicate IsSubseq<T(==)>(r: seq<T>, s: seq<T>)
    decreases |s|
  {
    if r == [] then true
    else if s == [] then false
    else if r[0] == s[0] then IsSubseq(r[1..], s[1..])
    else IsSubseq(r, s[1..])
  }

  lemma {:induction false} IsSubseqIn<T>(r: seq<T>, s: seq<T>, x: T)
    requires IsSubseq(r, s) && x in r
    ensures x in s
    decreases |s|
  {
    if r[0] == s[0] {
      if x != r[0] { IsSubseqIn(r[1..], s[1..], x); }
    } else {
      IsSubseqIn(r, s[1..], x);
    }
  }

  /** A boolean-mask row selection, `df[mask]`. */
  function Filter<T>(s: seq<T>, p: T -> bool): (r: seq<T>)
    ensures |r| <= |s|
    ensures forall i | 0 <= i < |r| :: p(r[i])
    ensures forall i | 0 <= i < |s| :: p(s[i]) ==> s[i] in multiset(r)
  {
    if s == [] then []
    else
      var rest := Filter(s[1..], p);
      assert forall i | 1 <= i < |s| :: s[i] == s[1..][i - 1];
      if p(s[0]) then [s[0]] + rest else rest
  }

  lemma {:induction false} FilterMembership<T>(s: seq<T>, p: T -> bool, x: T)
    ensures x in Filter(s, p) <==> x in s && p(x)
  {
    if s != [] {
      FilterMembership(s[1..], p, x);
    }
  }

  lemma {:induction false} FilterIsSubseq<T>(s: seq<T>, p: T -> bool)
    ensures IsSubseq(Filter(s, p), s)
  {
    if s != [] {
      FilterIsSubseq(s[1..], p);
      if !p(s[0]) {
        SubseqSkipHead(Filter(s[1..], p), s);
      }
    }
  }

  lemma {:induction false} SubseqSkipHead<T>(r: seq<T>, s: seq<T>)
    requires s != [] && IsSubseq(r, s[1..])
    ensures IsSubseq(r, s)
    decreases |s|, 1
  {
    if r != [] && r[0] == s[0] {
      SubseqTail(r, s[1..]);
    }
  }

  lemma {:induction false} SubseqTail<T>(r: seq<T>, s: seq<T>)
    requires r != [] && IsSubseq(r, s)
    ensures IsSubseq(r[1..], s)
    decreases |s|, 2
  {
    if r[0] != s[0] {
      SubseqTail(r, s[1..]);
      SubseqSkipHead(r[1..], s);
    } else if r[1..] != [] {
      SubseqSkipHead(r[1..], s);
    }
  }

  /** The set of keys of a sequence of rows. */
  function Keys<T, K>(s: seq<T>, key: T -> K): set<K>
  {
    set i | 0 <= i < |s| :: key(s[i])
  }

  /** No two rows share a key. */
  predicate UniqueKeys<T, K(==)>(s: seq<T>, key: T -> K) {
    forall i, j | 0 <= i < j < |s| :: key(s[i]) != key(s[j])
  }

  lemma KeysCons<T, K>(x: T, s: seq<T>, key: T -> K)
    ensures Keys([x] + s, key) == {key(x)} + Keys(s, key)
  {
    var l := [x] + s;
    assert l[0] == x;
    forall k | k in Keys(l, key) ensures k in {key(x)} + Keys(s, key) {
      var i :| 0 <= i < |l| && key(l[i]) == k;
      if i > 0 { assert l[i] == s[i - 1]; }
    }
    forall k | k in Keys(s, key) ensures k in Keys(l, key) {
      var i :| 0 <= i < |s| && key(s[i]) == k;
      assert l[i + 1] == s[i];
    }
  }

  lemma KeysAppend<T, K>(a: seq<T>, b: seq<T>, key: T -> K)
    ensures Keys(a + b, key) == Keys(a, key) + Keys(b, key)
  {
    var l := a + b;
    forall k | k in Keys(l, key) ensures k in Keys(a, key) + Keys(b, key) {
      var i :| 0 <= i < |l| && key(l[i]) == k;
      if i >= |a| { assert l[i] == b[i - |a|]; }
    }
    forall k | k in Keys(b, key) ensures k in Keys(l, key) {
      var i :| 0 <= i < |b| && key(b[i]) == k;
      assert l[i + |a|] == b[i];
    }
    forall k | k in Keys(a, key) ensures k in Keys(l, key) {
      var i :| 0 <= i < |a| && key(a[i]) == k;
      assert l[i] == a[i];
    }
  }

  /** The first row of `s` whose key is `k`. */
  function FirstWith<T, K(==)>(s: seq<T>, key: T -> K, k: K): T
    requires k in Keys(s, key)
  {
    KeysCons(s[0], s[1..], key);
    assert s == [s[0]] + s[1..];
    if key(s[0]) == k then s[0] else FirstWith(s[1..], key, k)
  }

  /** The last row of `s` whose key is `k`. */
  function LastWith<T, K(==)>(s: seq<T>, key: T -> K, k: K): T
    requires k in Keys(s, key)
  {
    KeysCons(s[0], s[1..], key);
    assert s == [s[0]] + s[1..];
    if k in Keys(s[1..], key) then LastWith(s[1..], key, k) else s[0]
  }

  function KeepFirstFrom<T, K(==)>(s: seq<T>, key: T -> K, seen: set<K>): (r: seq<T>)
  {
    if s == [] then []
    else if key(s[0]) in seen then KeepFirstFrom(s[1..], key, seen)
    else [s[0]] + KeepFirstFrom(s[1..], key, seen + {key(s[0])})
  }

  /** pandas' `drop_duplicates(key)` with the default `keep="first"`. */
  function KeepFirst<T, K(==)>(s: seq<T>, key: T -> K): seq<T>
  {
    KeepFirstFrom(s, key, {})
  }

  /** pandas' `drop_duplicates(key, keep="last")`. */
  function KeepLast<T, K(==)>(s: seq<T>, key: T -> K): seq<T>
  {
    if s == [] then []
    else if key(s[0]) in Keys(s[1..], key) then KeepLast(s[1..], key)
    else [s[0]] + KeepLast(s[1..], key)
  }

  lemma {:induction false} KeepFirstFromFacts<T, K>(s: seq<T>, key: T -> K, seen: set<K>)
    ensures var r := KeepFirstFrom(s, key, seen);
      && UniqueKeys(r, key)
      && Keys(r, key) == Keys(s, key) - seen
      && IsSubseq(r, s)
      && forall x | x in r :: key(x) in Keys(s, key) && x == FirstWith(s, key, key(x))
  {
    var r := KeepFirstFrom(s, key, seen);
    if s != [] {
      var t := s[1..];
      assert s == [s[0]] + t;
      KeysCons(s[0], t, key);
      if key(s[0]) in seen {
        KeepFirstFromFacts(t, key, seen);
        SubseqSkipHead(r, s);
        forall x | x in r ensures key(x) in Keys(s, key) && x == FirstWith(s, key, key(x)) {
          assert key(x) !in seen by {
            assert key(x) in Keys(r, key) by { var i :| 0 <= i < |r| && r[i] == x; }
          }
        }
      } else {
        var seen' := seen + {key(s[0])};
        var rest := KeepFirstFrom(t, key, seen');
        KeepFirstFromFacts(t, key, seen');
        assert r == [s[0]] + rest;
        KeysCons(s[0], rest, key);
        forall i, j | 0 <= i < j < |r| ensures key(r[i]) != key(r[j]) {
          if i == 0 {
            assert r[j] == rest[j - 1];
            assert key(rest[j - 1]) in Keys(rest, key);
          } else {
            assert r[i] == rest[i - 1] && r[j] == rest[j - 1];
          }
        }
        forall x | x in r ensures key(x) in Keys(s, key) && x == FirstWith(s, key, key(x)) {
          if x != s[0] {
            assert x in rest;
            assert key(x) in Keys(rest, key) by { var i :| 0 <= i < |rest| && rest[i] == x; }
          }
        }
      }
    }
  }

  lemma {:induction false} KeepLastFacts<T, K>(s: seq<T>, key: T -> K)
    ensures var r := KeepLast(s, key);
      && UniqueKeys(r, key)
      && Keys(r, key) == Keys(s, key)
      && IsSubseq(r, s)
      && forall x | x in r :: key(x) in Keys(s, key) && x == LastWith(s, key, key(x))
  {
    var r := KeepLast(s, key);
    if s != [] {
      var t := s[1..];
      assert s == [s[0]] + t;
      KeysCons(s[0], t, key);
      KeepLastFacts(t, key);
      var rest := KeepLast(t, key);
      if key(s[0]) in Keys(t, key) {
        SubseqSkipHead(r, s);
        forall x | x in r ensures key(x) in Keys(s, key) && x == LastWith(s, key, key(x)) {
        }
      } else {
        assert r == [s[0]] + rest;
        KeysCons(s[0], rest, key);
        forall i, j | 0 <= i < j < |r| ensures key(r[i]) != key(r[j]) {
          if i == 0 {
            assert r[j] == rest[j - 1];
            assert key(rest[j - 1]) in Keys(rest, key);
          } else {
            assert r[i] == rest[i - 1] && r[j] == rest[j - 1];
          }
        }
        forall x | x in r ensures key(x) in Keys(s, key) && x == LastWith(s, key, key(x)) {
          if x != s[0] {
            assert x in rest;
            assert key(x) in Keys(rest, key) by { var i :| 0 <= i < |rest| && rest[i] == x; }
          }
        }
      }
    }
  }

  /** keep="first" leaves one row per key, the first one of each key, in input order. */
  lemma KeepFirstFacts<T, K>(s: seq<T>, key: T -> K)
    ensures var r := KeepFirst(s, key);
      && UniqueKeys(r, key)
      && Keys(r, key) == Keys(s, key)
      && IsSubseq(r, s)
      && forall x | x in r :: key(x) in Keys(s, key) && x == FirstWith(s, key, key(x))
  {
    KeepFirstFromFacts(s, key, {});
  }

  lemma {:induction false} LastWithAppend<T, K>(a: seq<T>, b: seq<T>, key: T -> K, k: K)
    requires k in Keys(b, key)
    ensures k in Keys(a + b, key) && LastWith(a + b, key, k) == LastWith(b, key, k)
    decreases |a|
  {
    KeysAppend(a, b, key);
    if a == [] {
      assert a + b == b;
    } else {
      assert (a + b)[1..] == a[1..] + b;
      KeysAppend(a[1..], b, key);
      LastWithAppend(a[1..], b, key, k);
      assert k in Keys((a + b)[1..], key);
      assert LastWith(a + b, key, k) == LastWith((a + b)[1..], key, k);
    }
  }

  lemma {:induction false} LastWithPrefix<T, K>(a: seq<T>, b: seq<T>, key: T -> K, k: K)
    requires k in Keys(a, key) && k !in Keys(b, key)
    ensures k in Keys(a + b, key) && LastWith(a + b, key, k) == LastWith(a, key, k)
    decreases |a|
  {
    KeysAppend(a, b, key);
    assert (a + b)[1..] == a[1..] + b;
    KeysAppend(a[1..], b, key);
    KeysCons(a[0], a[1..], key);
    assert a == [a[0]] + a[1..];
    if k in Keys(a[1..], key) {
      LastWithPrefix(a[1..], b, key, k);
    }
  }

  lemma LastWithUnique<T, K>(s: seq<T>, key: T -> K, i: nat)
    requires UniqueKeys(s, key) && i < |s|
    ensures key(s[i]) in Keys(s, key) && LastWith(s, key, key(s[i])) == s[i]
    decreases |s|
  {
    KeysCons(s[0], s[1..], key);
    assert s == [s[0]] + s[1..];
    if i > 0 {
      assert s[i] == s[1..][i - 1];
      LastWithUnique(s[1..], key, i - 1);
    } else {
      forall j | 0 <= j < |s| - 1 ensures key(s[1..][j]) != key(s[0]) {
        assert s[1..][j] == s[j + 1];
      }
      assert key(s[0]) !in Keys(s[1..], key);
    }
  }

  /** Concatenating stored rows with incoming rows and keeping the last per key:
      one row per key, every incoming row survives, and a stored row survives
      exactly when its key is not incoming and it is the last stored row of its key. */
  lemma MergeKeepIncoming<T, K>(stored: seq<T>, incoming: seq<T>, key: T -> K)
    requires UniqueKeys(incoming, key)
    ensures var m := KeepLast(stored + incoming, key);
      && UniqueKeys(m, key)
      && Keys(m, key) == Keys(stored, key) + Keys(incoming, key)
      && (forall i | 0 <= i < |incoming| :: incoming[i] in m)
      && (forall x | x in m && key(x) !in Keys(incoming, key) ::
            key(x) in Keys(stored, key) && x == LastWith(stored, key, key(x)))
      && (forall k | k in Keys(stored, key) && k !in Keys(incoming, key) ::
            LastWith(stored, key, k) in m)
  {
    var s := stored + incoming;
    var m := KeepLast(s, key);
    KeepLastFacts(s, key);
    KeysAppend(stored, incoming, key);
    forall i | 0 <= i < |incoming| ensures incoming[i] in m {
      var k := key(incoming[i]);
      LastWithUnique(incoming, key, i);
      LastWithAppend(stored, incoming, key, k);
      KeepLastHasLast(s, key, k);
    }
    forall x | x in m && key(x) !in Keys(incoming, key)
      ensures key(x) in Keys(stored, key) && x == LastWith(stored, key, key(x))
    {
      LastWithPrefix(stored, incoming, key, key(x));
    }
    forall k | k in Keys(stored, key) && k !in Keys(incoming, key)
      ensures LastWith(stored, key, k) in m
    {
      LastWithPrefix(stored, incoming, key, k);
      KeepLastHasLast(s, key, k);
    }
  }

  lemma {:induction false} KeepLastHasLast<T, K>(s: seq<T>, key: T -> K, k: K)
    requires k in Keys(s, key)
    ensures LastWith(s, key, k) in KeepLast(s, key)
  {
    KeysCons(s[0], s[1..], key);
    assert s == [s[0]] + s[1..];
    if k in Keys(s[1..], key) {
      KeepLastHasLast(s[1..], key, k);
      if key(s[0]) !in Keys(s[1..], key) {
        assert KeepLast(s, key) == [s[0]] + KeepLast(s[1..], key);
      }
    }
  }

  /** Every key keeps a row under keep="first", the first one of that key. */
  lemma {:induction false} KeepFirstFromHasFirst<T, K>(s: seq<T>, key: T -> K, seen: set<K>, k: K)
    requires k in Keys(s, key) && k !in seen
    ensures FirstWith(s, key, k) in KeepFirstFrom(s, key, seen)
  {
    KeysCons(s[0], s[1..], key);
    assert s == [s[0]] + s[1..];
    if key(s[0]) != k {
      if key(s[0]) in seen {
        KeepFirstFromHasFirst(s[1..], key, seen, k);
      } else {
        KeepFirstFromHasFirst(s[1..], key, seen + {key(s[0])}, k);
      }
    }
  }
}
