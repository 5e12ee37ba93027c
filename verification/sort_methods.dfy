/** The sort methods of xlsd/__init__.py and the name-to-method registry they
    are recorded in. */
module SortMethods {
  import opened Entries
  import opened TextOrder
  import opened NameSort

  /** Whether `directories_first` files an entry with the directories: when
      `is_dir()` says so, and also when it raises an OSError. */
  predicate InDirectoryGroup(entry: PathEntry)
  {
    entry.isDir != NotDir
  }

  /** The entries of `s` in the directory group (`dirs`) or in the file group
      (`!dirs`), in their order in `s`. */
  function Group(s: seq<PathEntry>, dirs: bool): (r: seq<PathEntry>)
    ensures forall i :: 0 <= i < |r| ==> InDirectoryGroup(r[i]) == dirs
  {
    if |s| == 0 then []
    else (if InDirectoryGroup(s[0]) == dirs then [s[0]] else []) + Group(s[1..], dirs)
  }

  lemma {:induction false} GroupAppend(a: seq<PathEntry>, b: seq<PathEntry>, dirs: bool)
    ensures Group(a + b, dirs) == Group(a, dirs) + Group(b, dirs)
    decreases |a|
  {
    if |a| > 0 {
      assert (a + b)[1..] == a[1..] + b;
      GroupAppend(a[1..], b, dirs);
    } else {
      assert a + b == b;
    }
  }

  /** Filtering a sequence that lies wholly in one group keeps all of it for
      that group and none of it for the other. */
  lemma {:induction false} GroupOfOneGroup(s: seq<PathEntry>, dirs: bool)
    requires forall i :: 0 <= i < |s| ==> InDirectoryGroup(s[i]) == dirs
    ensures Group(s, dirs) == s
    ensures Group(s, !dirs) == []
    decreases |s|
  {
    if |s| > 0 {
      GroupOfOneGroup(s[1..], dirs);
      assert s == [s[0]] + s[1..];
    }
  }

  /** The two groups together hold exactly the entries of `s`. */
  lemma {:induction false} GroupsPartition(s: seq<PathEntry>)
    ensures multiset(Group(s, true)) + multiset(Group(s, false)) == multiset(s)
    decreases |s|
  {
    if |s| > 0 {
      GroupsPartition(s[1..]);
      assert s == [s[0]] + s[1..];
    }
  }

  /** Every entry of the directory group comes before every entry of the
      file group. */
  predicate DirectoriesBeforeFiles(r: seq<PathEntry>)
  {
    forall i, j ::
      0 <= i < |r| && 0 <= j < |r| && InDirectoryGroup(r[i]) && !InDirectoryGroup(r[j]) ==> i < j
  }

  /** Entries of the same group are in non-decreasing order of lower-cased
      name. */
  predicate SortedWithinGroups(r: seq<PathEntry>)
  {
    forall i, j ::
      0 <= i < j < |r| && InDirectoryGroup(r[i]) == InDirectoryGroup(r[j]) ==> LexLe(Key(r[i]), Key(r[j]))
  }

  /** For each group and each key, `r` holds the entries of `s` of that group
      with that key, in their order in `s`. */
  ghost predicate StableWithinGroups(s: seq<PathEntry>, r: seq<PathEntry>)
  {
    forall dirs, k :: WithKey(Group(r, dirs), k) == WithKey(Group(s, dirs), k)
  }

  /** `xlsd_sort_directories_first`: directories (and entries whose `is_dir()`
      raised) first, then the other entries, each group stably sorted by
      lower-cased name. */
  function SortDirectoriesFirst(entries: seq<PathEntry>): (r: seq<PathEntry>)
    ensures multiset(r) == multiset(entries)
    ensures DirectoriesBeforeFiles(r)
    ensures SortedWithinGroups(r)
    ensures StableWithinGroups(entries, r)
  {
    var directories := Group(entries, true);
    var files := Group(entries, false);
    var sortedDirectories := SortByName(directories);
    var sortedFiles := SortByName(files);
    SortedGroupsFacts(entries, sortedDirectories, sortedFiles);
    sortedDirectories + sortedFiles
  }

  /** The two sorted groups keep to their groups. */
  lemma SortedGroupsKeepGroups(entries: seq<PathEntry>, d: seq<PathEntry>, f: seq<PathEntry>)
    requires d == SortByName(Group(entries, true))
    requires f == SortByName(Group(entries, false))
    ensures forall i :: 0 <= i < |d| ==> InDirectoryGroup(d[i])
    ensures forall i :: 0 <= i < |f| ==> !InDirectoryGroup(f[i])
  {
    forall i | 0 <= i < |d|
      ensures InDirectoryGroup(d[i])
    {
      assert d[i] in multiset(Group(entries, true));
    }
    forall i | 0 <= i < |f|
      ensures !InDirectoryGroup(f[i])
    {
      assert f[i] in multiset(Group(entries, false));
    }
  }

  lemma SortedGroupsFacts(entries: seq<PathEntry>, d: seq<PathEntry>, f: seq<PathEntry>)
    requires d == SortByName(Group(entries, true))
    requires f == SortByName(Group(entries, false))
    ensures multiset(d + f) == multiset(entries)
    ensures DirectoriesBeforeFiles(d + f)
    ensures SortedWithinGroups(d + f)
    ensures StableWithinGroups(entries, d + f)
  {
    GroupsPartition(entries);
    SortedGroupsKeepGroups(entries, d, f);
    ConcatenatedGroupsOrdered(d, f);
    ConcatenatedGroupsStable(entries, d, f);
  }

  /** Two sorted groups, directories then files, are in directories-first
      order and sorted within each group. */
  lemma ConcatenatedGroupsOrdered(d: seq<PathEntry>, f: seq<PathEntry>)
    requires forall i :: 0 <= i < |d| ==> InDirectoryGroup(d[i])
    requires forall i :: 0 <= i < |f| ==> !InDirectoryGroup(f[i])
    requires Sorted(d) && Sorted(f)
    ensures DirectoriesBeforeFiles(d + f)
    ensures SortedWithinGroups(d + f)
  {
    var r := d + f;
    forall i, j | 0 <= i < j < |r| && InDirectoryGroup(r[i]) == InDirectoryGroup(r[j])
      ensures LexLe(Key(r[i]), Key(r[j]))
    {
      if j < |d| {
        assert r[i] == d[i] && r[j] == d[j];
      } else {
        assert i >= |d|;
        assert r[i] == f[i - |d|] && r[j] == f[j - |d|];
      }
    }
  }

  /** Concatenating the groups keeps, per group and key, what each group
      kept of the input. */
  lemma ConcatenatedGroupsStable(entries: seq<PathEntry>, d: seq<PathEntry>, f: seq<PathEntry>)
    requires forall i :: 0 <= i < |d| ==> InDirectoryGroup(d[i])
    requires forall i :: 0 <= i < |f| ==> !InDirectoryGroup(f[i])
    requires forall k :: WithKey(d, k) == WithKey(Group(entries, true), k)
    requires forall k :: WithKey(f, k) == WithKey(Group(entries, false), k)
    ensures StableWithinGroups(entries, d + f)
  {
    GroupOfOneGroup(d, true);
    GroupOfOneGroup(f, false);
    GroupAppend(d, f, true);
    GroupAppend(d, f, false);
    assert Group(d + f, true) == d;
    assert Group(d + f, false) == f;
  }

  /** In a sequence with directories first, the directory group is a prefix
      and the file group the rest. */
  lemma {:induction false} SplitAtGroups(r: seq<PathEntry>)
    requires DirectoriesBeforeFiles(r)
    ensures r == Group(r, true) + Group(r, false)
    decreases |r|
  {
    if |r| > 0 {
      if InDirectoryGroup(r[0]) {
        assert DirectoriesBeforeFiles(r[1..]) by {
          forall i, j | 0 <= i < |r[1..]| && 0 <= j < |r[1..]| && InDirectoryGroup(r[1..][i]) && !InDirectoryGroup(r[1..][j])
            ensures i < j
          {
            assert r[1..][i] == r[i + 1] && r[1..][j] == r[j + 1];
          }
        }
        SplitAtGroups(r[1..]);
        assert r == [r[0]] + r[1..];
      } else {
        forall i | 0 <= i < |r|
          ensures !InDirectoryGroup(r[i])
        {
        }
        GroupOfOneGroup(r, false);
      }
    }
  }

  /** `SortDirectoriesFirst` is the only arrangement of the entries with
      directories first, each group sorted by lower-cased name and stable. */
  lemma DirectoriesFirstUnique(entries: seq<PathEntry>, r: seq<PathEntry>)
    requires DirectoriesBeforeFiles(r)
    requires SortedWithinGroups(r)
    requires StableWithinGroups(entries, r)
    ensures r == SortDirectoriesFirst(entries)
  {
    SplitAtGroups(r);
    var d, f := Group(r, true), Group(r, false);
    assert Sorted(d) by {
      forall i, j | 0 <= i < j < |d|
        ensures LexLe(Key(d[i]), Key(d[j]))
      {
        assert d[i] == r[i] && d[j] == r[j];
      }
    }
    assert Sorted(f) by {
      forall i, j | 0 <= i < j < |f|
        ensures LexLe(Key(f[i]), Key(f[j]))
      {
        assert f[i] == r[|d| + i] && f[j] == r[|d| + j];
      }
    }
    assert forall k :: WithKey(d, k) == WithKey(Group(entries, true), k);
    assert forall k :: WithKey(f, k) == WithKey(Group(entries, false), k);
    SortedStableUnique(Group(entries, true), d);
    SortedStableUnique(Group(entries, false), f);
  }

  /** Sorting directories first a second time changes nothing. */
  lemma DirectoriesFirstIdempotent(entries: seq<PathEntry>)
    ensures SortDirectoriesFirst(SortDirectoriesFirst(entries)) == SortDirectoriesFirst(entries)
  {
    var r := SortDirectoriesFirst(entries);
    DirectoriesFirstUnique(r, r);
  }

  /** `xlsd_sort_alphabetical`: all entries, whatever their kind, stably
      sorted by lower-cased name. */
  function SortAlphabetical(entries: seq<PathEntry>): (r: seq<PathEntry>)
    ensures multiset(r) == multiset(entries)
    ensures Sorted(r)
    ensures forall k :: WithKey(r, k) == WithKey(entries, k)
  {
    SortByName(entries)
  }

  /** Sorting alphabetically a second time changes nothing. */
  lemma AlphabeticalIdempotent(entries: seq<PathEntry>)
    ensures SortAlphabetical(SortAlphabetical(entries)) == SortAlphabetical(entries)
  {
    var r := SortAlphabetical(entries);
    SortedStableUnique(r, r);
  }

  /** When every entry falls in the same group, sorting directories first is
      sorting alphabetically. */
  lemma OneGroupDirectoriesFirstIsAlphabetical(entries: seq<PathEntry>, dirs: bool)
    requires forall i :: 0 <= i < |entries| ==> InDirectoryGroup(entries[i]) == dirs
    ensures SortDirectoriesFirst(entries) == SortAlphabetical(entries)
  {
    GroupOfOneGroup(entries, dirs);
    assert SortByName([]) == [];
  }

  /** `xlsd_sort_as_is`: the entries in the order the OS listed them. */
  function SortAsIs(entries: seq<PathEntry>): (r: seq<PathEntry>)
    ensures r == entries
  {
    entries
  }

  /** A sort method: the signature `XlsdSortMethod`. */
  type SortMethod = seq<PathEntry> -> seq<PathEntry>

  /** `XLSD_SORT_METHODS`: sort methods by name. */
  type Registry = map<string, SortMethod>

  /** `xlsd_register_sort_method(name)(sorter)`: record `sorter` under `name`,
      replacing any method already there, and hand `sorter` back unchanged.
      The first component is the updated registry. */
  function RegisterSortMethod(registry: Registry, name: string, sorter: SortMethod): (r: (Registry, SortMethod))
    ensures r.1 == sorter
    ensures r.0.Keys == registry.Keys + {name}
    ensures r.0[name] == sorter
    ensures forall n :: n in registry && n != name ==> r.0[n] == registry[n]
  {
    (registry[name := sorter], sorter)
  }

  /** The registry once the module is loaded: the three built-in methods,
      registered in the order the module defines them. */
  function BuiltinSortMethods(): (registry: Registry)
    ensures registry.Keys == {"directories_first", "alphabetical", "as_is"}
    ensures registry["directories_first"] == SortDirectoriesFirst
    ensures registry["alphabetical"] == SortAlphabetical
    ensures registry["as_is"] == SortAsIs
  {
    var (afterDirectoriesFirst, _) := RegisterSortMethod(map[], "directories_first", SortDirectoriesFirst);
    var (afterAlphabetical, _) := RegisterSortMethod(afterDirectoriesFirst, "alphabetical", SortAlphabetical);
    RegisterSortMethod(afterAlphabetical, "as_is", SortAsIs).0
  }

  /** The example of a mixed listing: `b.txt`, `A/`, `a.txt`, `B/` sorts to
      `A/`, `B/`, `a.txt`, `b.txt`. */
  lemma DirectoriesFirstExample()
    ensures SortDirectoriesFirst([
              PathEntry("b.txt", NotDir), PathEntry("A", Dir),
              PathEntry("a.txt", NotDir), PathEntry("B", Dir)])
         == [PathEntry("A", Dir), PathEntry("B", Dir),
             PathEntry("a.txt", NotDir), PathEntry("b.txt", NotDir)]
  {
    assert LowerChar('A') == 'a' && LowerChar('B') == 'b';
    TwoDirectoriesTwoFiles(PathEntry("A", Dir), PathEntry("B", Dir),
                           PathEntry("a.txt", NotDir), PathEntry("b.txt", NotDir));
  }

  /** Directories `d1`, `d2` and files `f1`, `f2` listed as `f2, d1, f1, d2`
      come out as `d1, d2, f1, f2` when the first letters order each pair. */
  lemma TwoDirectoriesTwoFiles(d1: PathEntry, d2: PathEntry, f1: PathEntry, f2: PathEntry)
    requires d1.isDir == Dir && d2.isDir == Dir && f1.isDir == NotDir && f2.isDir == NotDir
    requires |d1.name| > 0 && |d2.name| > 0 && |f1.name| > 0 && |f2.name| > 0
    requires LowerChar(d1.name[0]) < LowerChar(d2.name[0])
    requires LowerChar(f1.name[0]) < LowerChar(f2.name[0])
    ensures SortDirectoriesFirst([f2, d1, f1, d2]) == [d1, d2, f1, f2]
  {
    var entries := [f2, d1, f1, d2];
    SortsGroupsSeparately(entries);
    TwoDirectoriesTwoFilesGroups(d1, d2, f1, f2);
    SortedPairs(d1, d2, f1, f2);
  }

  lemma SortedPairs(d1: PathEntry, d2: PathEntry, f1: PathEntry, f2: PathEntry)
    requires |d1.name| > 0 && |d2.name| > 0 && |f1.name| > 0 && |f2.name| > 0
    requires LowerChar(d1.name[0]) < LowerChar(d2.name[0])
    requires LowerChar(f1.name[0]) < LowerChar(f2.name[0])
    ensures SortByName([d1, d2]) + SortByName([f2, f1]) == [d1, d2, f1, f2]
  {
    SortPair(d1, d2);
    SortPair(f2, f1);
  }

  lemma SortsGroupsSeparately(entries: seq<PathEntry>)
    ensures SortDirectoriesFirst(entries) == SortByName(Group(entries, true)) + SortByName(Group(entries, false))
  {
  }

  lemma TwoDirectoriesTwoFilesGroups(d1: PathEntry, d2: PathEntry, f1: PathEntry, f2: PathEntry)
    requires d1.isDir == Dir && d2.isDir == Dir && f1.isDir == NotDir && f2.isDir == NotDir
    ensures Group([f2, d1, f1, d2], true) == [d1, d2]
    ensures Group([f2, d1, f1, d2], false) == [f2, f1]
  {
    var entries := [f2, d1, f1, d2];
    assert [d2][1..] == [];
    assert [f1, d2][1..] == [d2];
    assert [d1, f1, d2][1..] == [f1, d2];
    assert entries[1..] == [d1, f1, d2];
    assert Group([], true) == [] && Group([], false) == [];
    assert Group([d2], true) == [d2] && Group([d2], false) == [];
    assert Group([f1, d2], true) == [d2] && Group([f1, d2], false) == [f1];
    assert Group([d1, f1, d2], true) == [d1, d2] && Group([d1, f1, d2], false) == [f1];
  }

  /** Sorting two entries whose names start with different letters. */
  lemma SortPair(x: PathEntry, y: PathEntry)
    requires |x.name| > 0 && |y.name| > 0
    requires LowerChar(x.name[0]) != LowerChar(y.name[0])
    ensures SortByName([x, y]) == if LowerChar(x.name[0]) < LowerChar(y.name[0]) then [x, y] else [y, x]
  {
    assert Key(x)[0] == LowerChar(x.name[0]) && Key(y)[0] == LowerChar(y.name[0]);
    assert [x, y][1..] == [y];
    assert [y][1..] == [];
    assert SortByName([y]) == [y];
    assert SortByName([x, y]) == Insert(x, [y]);
    if !LexLe(Key(x), Key(y)) {
      assert Insert(x, [y]) == [y] + Insert(x, []);
    }
  }
}
