/** Python's `list.sort(key=_direntry_lowercase_name)`: a stable sort of
    entries by lower-cased name. It is modelled as an insertion sort, and
    `SortedStableUnique` shows that any stable sort gives the same result. */
module NameSort {
  import opened Entries
  import opened TextOrder

  /** The sort key of an entry. */
  function Key(entry: PathEntry): string
  {
    LowercaseName(entry)
  }

  /** Entries in non-decreasing order of their keys. */
  predicate Sorted(s: seq<PathEntry>)
  {
    forall i, j :: 0 <= i < j < |s| ==> LexLe(Key(s[i]), Key(s[j]))
  }

  /** The entries of `s` whose key is `k`, in their order in `s`. A sort is
      stable when it leaves `WithKey(s, k)` unchanged for every `k`. */
  function WithKey(s: seq<PathEntry>, k: string): seq<PathEntry>
  {
    if |s| == 0 then []
    else (if Key(s[0]) == k then [s[0]] else []) + WithKey(s[1..], k)
  }

  lemma {:induction false} WithKeyAppend(a: seq<PathEntry>, b: seq<PathEntry>, k: string)
    ensures WithKey(a + b, k) == WithKey(a, k) + WithKey(b, k)
    decreases |a|
  {
    if |a| > 0 {
      assert (a + b)[1..] == a[1..] + b;
      WithKeyAppend(a[1..], b, k);
    } else {
      assert a + b == b;
    }
  }

  /** Insert `x` into sorted `t` in front of the first entry whose key is not
      smaller than its own. */
  function Insert(x: PathEntry, t: seq<PathEntry>): (r: seq<PathEntry>)
    ensures multiset(r) == multiset([x] + t)
  {
    if |t| == 0 || LexLe(Key(x), Key(t[0])) then [x] + t
    else
      assert [x] + t == [x] + [t[0]] + t[1..];
      [t[0]] + Insert(x, t[1..])
  }

  /** Insertion keeps a sequence sorted. */
  lemma {:induction false} InsertSorted(x: PathEntry, t: seq<PathEntry>)
    requires Sorted(t)
    ensures Sorted(Insert(x, t))
    decreases |t|
  {
    if |t| == 0 || LexLe(Key(x), Key(t[0])) {
      forall j | 0 <= j < |t|
        ensures LexLe(Key(x), Key(t[j]))
      {
        if j > 0 {
          LexLeTransitive(Key(x), Key(t[0]), Key(t[j]));
        }
      }
    } else {
      var rest := Insert(x, t[1..]);
      InsertSorted(x, t[1..]);
      LexLeTotal(Key(x), Key(t[0]));
      forall j | 0 <= j < |rest|
        ensures LexLe(Key(t[0]), Key(rest[j]))
      {
        assert rest[j] in multiset([x] + t[1..]);
        if rest[j] != x {
          assert rest[j] in t[1..];
        }
      }
      assert Insert(x, t) == [t[0]] + rest;
    }
  }

  /** Insertion puts `x` ahead of the entries that share its key and leaves
      their order alone. */
  lemma {:induction false} InsertStable(x: PathEntry, t: seq<PathEntry>, k: string)
    ensures WithKey(Insert(x, t), k) == WithKey([x] + t, k)
    decreases |t|
  {
    if !(|t| == 0 || LexLe(Key(x), Key(t[0]))) {
      var rest := Insert(x, t[1..]);
      InsertStable(x, t[1..], k);
      WithKeyAppend([t[0]], rest, k);
      WithKeyAppend([x], t[1..], k);
      assert [x] + t == [x] + [t[0]] + t[1..];
      WithKeyAppend([x] + [t[0]], t[1..], k);
      WithKeyAppend([x], [t[0]], k);
      if Key(x) == k && Key(t[0]) == k {
        LexLeReflexive(k);
      }
    }
  }

  /** The sort: a permutation of `s`, sorted by key, and stable. */
  function SortByName(s: seq<PathEntry>): (r: seq<PathEntry>)
    ensures multiset(r) == multiset(s)
    ensures Sorted(r)
    ensures forall k :: WithKey(r, k) == WithKey(s, k)
  {
    if |s| == 0 then []
    else
      var t := SortByName(s[1..]);
      InsertSorted(s[0], t);
      InsertKeepsStability(s[0], s[1..], t);
      assert s == [s[0]] + s[1..];
      Insert(s[0], t)
  }

  /** Inserting `x` into a stable arrangement `t` of `rest` gives a stable
      arrangement of `[x] + rest`. */
  lemma InsertKeepsStability(x: PathEntry, rest: seq<PathEntry>, t: seq<PathEntry>)
    requires forall k :: WithKey(t, k) == WithKey(rest, k)
    ensures forall k :: WithKey(Insert(x, t), k) == WithKey([x] + rest, k)
  {
    forall k
      ensures WithKey(Insert(x, t), k) == WithKey([x] + rest, k)
    {
      InsertStable(x, t, k);
      WithKeyAppend([x], t, k);
      WithKeyAppend([x], rest, k);
    }
  }

  lemma {:induction false} WithKeyNonEmpty(s: seq<PathEntry>, k: string)
    requires |WithKey(s, k)| > 0
    ensures exists i :: 0 <= i < |s| && Key(s[i]) == k
    decreases |s|
  {
    if Key(s[0]) != k {
      WithKeyNonEmpty(s[1..], k);
      var i :| 0 <= i < |s[1..]| && Key(s[1..][i]) == k;
      assert Key(s[i + 1]) == k;
    }
  }

  /** A non-empty sequence has an entry with the key of its first entry. */
  lemma WithKeyOwnKey(s: seq<PathEntry>)
    ensures |s| > 0 ==> WithKey(s, Key(s[0])) != []
  {
  }

  /** Two sorted sequences with the same entries for every key are equal. */
  lemma {:induction false} SortedSameKeysEqual(a: seq<PathEntry>, b: seq<PathEntry>)
    requires Sorted(a) && Sorted(b)
    requires forall k :: WithKey(a, k) == WithKey(b, k)
    ensures a == b
    decreases |a| + |b|
  {
    WithKeyOwnKey(a);
    WithKeyOwnKey(b);
    if |a| > 0 && |b| > 0 {
      var ka, kb := Key(a[0]), Key(b[0]);
      WithKeyNonEmpty(b, ka);
      var j :| 0 <= j < |b| && Key(b[j]) == ka;
      if j > 0 { assert LexLe(kb, ka); } else { LexLeReflexive(ka); }
      WithKeyNonEmpty(a, kb);
      var i :| 0 <= i < |a| && Key(a[i]) == kb;
      if i > 0 { assert LexLe(ka, kb); } else { LexLeReflexive(kb); }
      LexLeAntisymmetric(ka, kb);
      assert a[0] == WithKey(a, ka)[0] == WithKey(b, ka)[0] == b[0];
      forall k
        ensures WithKey(a[1..], k) == WithKey(b[1..], k)
      {
        var head := if ka == k then [a[0]] else [];
        assert WithKey(a, k) == head + WithKey(a[1..], k);
        assert WithKey(b, k) == head + WithKey(b[1..], k);
        assert WithKey(a[1..], k) == (head + WithKey(a[1..], k))[|head|..];
        assert WithKey(b[1..], k) == (head + WithKey(b[1..], k))[|head|..];
      }
      SortedSameKeysEqual(a[1..], b[1..]);
      assert a == [a[0]] + a[1..];
      assert b == [b[0]] + b[1..];
    } else if |a| > 0 {
      assert false;
    } else if |b| > 0 {
      assert false;
    }
  }

  /** Any sorted sequence that keeps, for every key, the entries of `s` with
      that key in their order in `s` is `SortByName(s)`: every stable sort by
      lower-cased name agrees with this one. */
  lemma SortedStableUnique(s: seq<PathEntry>, r: seq<PathEntry>)
    requires Sorted(r)
    requires forall k :: WithKey(r, k) == WithKey(s, k)
    ensures r == SortByName(s)
  {
    SortedSameKeysEqual(r, SortByName(s));
  }
}
