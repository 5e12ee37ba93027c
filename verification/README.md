# xlsd listing core: icon store and sort methods

A Dafny model of two self-contained pieces of the xlsd directory-listing
renderer (a replacement for `ls` inside the xonsh shell):

- **`IconSet`** (`xlsd/icons.py`): a key-to-glyph store that caches the widest
  glyph's terminal width and pads every icon it returns with spaces to that
  width, so icons line up in columns. The constant tables `LS_ICONS`,
  `MIMETYPE_ICONS` and `EXTENSION_ICONS` are modelled as constant data.
- **Sort methods** (`xlsd/__init__.py`): `directories_first`, `alphabetical`
  and `as_is`, the case-insensitive sort key they use, and the name-to-method
  registry that `xlsd_register_sort_method` fills in.

Layout, one module per file:

| file | module | models |
|---|---|---|
| `wrappers.dfy` | `Wrappers` | `Option` / `Result` in place of `None` and raised exceptions |
| `cell_width.dfy` | `CellWidth` | the facts about `wcswidth` the icon store relies on |
| `icons.dfy` | `Icons` | `IconSet` and its operations |
| `icon_tables.dfy` | `IconTables` | `LS_ICONS` glyphs, `MIMETYPE_ICONS`, `EXTENSION_ICONS` |
| `entries.dfy` | `Entries` | `PathEntry` (name plus `is_dir()` outcome), `_direntry_lowercase_name` |
| `text_order.dfy` | `TextOrder` | Python's `<=` on strings (code-point lexicographic order) |
| `name_sort.dfy` | `NameSort` | `list.sort(key=_direntry_lowercase_name)`, a stable sort |
| `sort_methods.dfy` | `SortMethods` | the three sort methods and the registry |

How the model is set up:

- **Cell width.** `wcswidth` comes from the wcwidth library, whose Unicode
  tables are not part of this model. Every operation that measures takes the
  measure as a parameter `wc: string -> int`, and the facts it must satisfy are
  the predicate `CellWidth.WcswidthLaws`: `""` is 0 cells, a space is 1, `?` is
  1, `❔` is 2, and a space added on either side of a printable string (width
  at least 0) adds one cell. `CellWidth.WcswidthLawsSatisfiable` shows one
  concrete measure meets all of these, so the laws are consistent; that the
  library's `wcswidth` obeys them on the strings the set builds is assumed.
- **IconSet** is an immutable record: the glyph map and the cached width.
  `Icons.Valid` is the class invariant: the cached width is the larger of 0 and
  the widest glyph. The constructor and `add` are methods that recompute the
  width with a loop, as `_compute_width` does; the lookups are functions.
  `_pad_icon` returns a `Result` whose failure is the `ValueError`; `get`,
  `get_default` and `get_or_none` return plain values because, under the
  invariant, padding a stored glyph or the default glyph cannot fail (the
  failure branch is proved dead).
- **Entries.** A `PathEntry` is its name plus the outcome of `is_dir()`:
  `Dir`, `NotDir`, or `OsErr` for an `OSError`. The filesystem query behind it
  is taken as given.
- **Sorting.** Python's `list.sort` is stable. It is modelled by a stable
  insertion sort, `NameSort.SortByName`; `NameSort.SortedStableUnique` proves
  that every sorted, stable arrangement equals it, so the choice of algorithm
  does not matter. Likewise `SortMethods.DirectoriesFirstUnique` proves that
  `directories_first` is the only arrangement with directories first, each
  group sorted and stable. Stability is stated as: for every key, the
  subsequence of entries with that key is the same in output and input.
- **Registry.** A registry is a `map<string, SortMethod>`; registration
  returns the updated map together with the registered function, which the
  decorator hands back unchanged. `xlsd_sort_as_is` is `SortMethods.SortAsIs`,
  the identity.

Where the code and its comments differ: `xlsd_sort_directories_first` files an
entry with the directories when `is_dir()` raises `OSError` ("probably
circular symbolic link", `xlsd/__init__.py:51-52`), and the model does the
same for `OsErr`. But `PathEntry.is_dir()` in `xlsd/path.py:37-38` calls
`os.path.isdir`, which answers False instead of raising. So with that entry
type a broken or circular link lands in the file group. `OsErr` arises only
for entry types whose `is_dir()` raises, such as `os.DirEntry`.

## Model

| member | source | states |
|---|---|---|
| `CellWidth.SurroundWidth` | xlsd/icons.py:50-52 | a printable icon with `lead` spaces before it and `trail` spaces after it is `lead + width + trail` cells wide |
| `Icons.ComputeWidth` | xlsd/icons.py:22-29 | the result is the larger of 0 and the width of every stored glyph, and it is 0 or the width of some glyph |
| `Icons.New` | xlsd/icons.py:18-20 | a new IconSet keeps the given glyphs and satisfies the invariant: cached width = max(0, glyph widths) |
| `Icons.Add` | xlsd/icons.py:31-36 | `add` stores the icon under the key, keeps every other key's glyph, adds no other key, and re-establishes the width invariant |
| `Icons.AddFreshKeyWidth` | xlsd/icons.py:31-36 | adding a glyph under a new key makes the width the larger of the old width and the glyph's width |
| `Icons.Pad` | xlsd/icons.py:38-52 | padding fails exactly when the icon is wider than the set; an icon of the set's width comes back unchanged; otherwise the result is the icon between two runs of spaces that add up to the missing width, the trailing run equal to the leading one or one longer |
| `Icons.PadWidth` | xlsd/icons.py:42-52 | an icon no wider than the set pads successfully, and a printable one is padded to exactly the set's width |
| `Icons.GetDefault` | xlsd/icons.py:54-64 | the default icon is `""` for width 0, `"?"` for width 1 and `"❔"` centred in spaces for wider sets, always exactly the set's width and never raising |
| `Icons.Get` | xlsd/icons.py:66-76 | a stored key yields its glyph padded without error; a missing key yields the default icon; the result is the set's width whenever the glyph is printable |
| `Icons.GetOrNone` | xlsd/icons.py:78-87 | None exactly when the key is missing; otherwise the padded stored glyph, the same value `get` returns |
| `Icons.UniformWidth` | xlsd/icons.py:10-17 | every icon the set returns, from `get`, `get_or_none` or `get_default`, has the same width, the set's width |
| `Icons.GetAfterAdd` | xlsd/icons.py:31-36 | after `add(key, icon)`, `get(key)` is `icon` padded to the new width, every other stored key yields its old glyph padded to the new width, and absent keys yield the default |
| `IconTables.TableIconsResolve` | xlsd/icons.py:100-210 | every icon name in `MIMETYPE_ICONS` and `EXTENSION_ICONS` has a glyph in `LS_ICONS`, so `get_or_none` on it is never None |
| `Entries.LowercaseName` | xlsd/__init__.py:28-34 | the sort key has the name's length, maps every ASCII upper-case letter to its lower-case form (code point + 32) and keeps every other character |
| `Entries.LowercaseNameIgnoresCase` | xlsd/__init__.py:28-34 | two entries get the same sort key exactly when their names differ at most in the case of ASCII letters |
| `NameSort.SortByName` | xlsd/__init__.py:54-55 | sorting by lower-cased name yields a permutation of the input, in non-decreasing key order, that keeps entries with equal keys in input order |
| `NameSort.SortedStableUnique` | xlsd/__init__.py:54-55 | any sorted sequence keeping each key's entries in input order is exactly the stable sort of the input |
| `SortMethods.SortDirectoriesFirst` | xlsd/__init__.py:37-57 | the output is a permutation of the input; every directory (and every entry whose `is_dir()` raised) precedes every other entry; each group is in non-decreasing lower-cased-name order and keeps equal-key entries in input order |
| `SortMethods.DirectoriesFirstUnique` | xlsd/__init__.py:42-57 | any arrangement with directories first, each group sorted and stable, is exactly the `directories_first` result |
| `SortMethods.DirectoriesFirstIdempotent` | xlsd/__init__.py:37-57 | sorting a `directories_first` result again changes nothing |
| `SortMethods.DirectoriesFirstExample` | xlsd/__init__.py:37-57 | the listing `b.txt`, `A/`, `a.txt`, `B/` comes out as `A/`, `B/`, `a.txt`, `b.txt` |
| `SortMethods.SortAlphabetical` | xlsd/__init__.py:60-66 | the output is a permutation of the input in non-decreasing lower-cased-name order regardless of kind, with equal-key entries in input order |
| `SortMethods.AlphabeticalIdempotent` | xlsd/__init__.py:60-66 | sorting an `alphabetical` result again changes nothing |
| `SortMethods.OneGroupDirectoriesFirstIsAlphabetical` | xlsd/__init__.py:37-66 | when all entries fall in one group, `directories_first` and `alphabetical` agree |
| `SortMethods.SortAsIs` | xlsd/__init__.py:69-74 | returns its input unchanged, in the order the OS listed it |
| `SortMethods.RegisterSortMethod` | xlsd/__init__.py:18-25 | registration returns the function unchanged, maps the name to it (replacing any earlier method) and leaves every other name's method alone |
| `SortMethods.BuiltinSortMethods` | xlsd/__init__.py:15-74 | after the module loads, the registry holds exactly `directories_first`, `alphabetical` and `as_is`, bound to the three built-in methods |

## Left out

- `wcswidth`'s Unicode width tables (a foreign library): the measure is a parameter constrained only by `CellWidth.WcswidthLaws`. That the real `wcswidth` obeys those laws (`""` is 0 cells, space and `?` are 1, `❔` is 2, a space on either side of a printable string adds one cell) is assumed, not proved.
- Icons.New: the set is assumed to own its glyph map. In the source `__init__` keeps the caller's dict itself, not a copy, so `add` also writes into the caller's dict, and a write made directly through that shared dict skips `_compute_width`. That leaves the cached width stale, breaks `Icons.Valid`, and can make `get` / `get_or_none` raise `ValueError` in the source (for example, adding a wider glyph to the shared dict); the model's lookups require `Valid` and so do not cover that case.
- Entry names are sequences of Unicode scalar values. Python file names may hold lone surrogates (U+DC80 to U+DCFF, from undecodable bytes under surrogateescape), which `list.sort` orders by code point; names holding them are not modelled.
- Icons.Get: the width guarantee covers printable glyphs only (width at least 0); for a glyph on which `wcswidth` returns -1 the padded result's width is left unstated, as the -1 case is outside these laws.
- Icons.UniformWidth: requires every stored glyph to be printable, for the same reason.
- Entries.LowercaseName: lower-cases ASCII letters only; Python's `str.lower` applies full Unicode case mapping.
- `STAT_ICONS` (keyed by OS stat constants) and the `COLORS` style table: presentation data with no behaviour.
- The insertion order of the glyph dictionary: nothing in these files depends on it, so glyphs are a `map`.
- In-place mutation: `add` and `xlsd_sort_alphabetical`'s `list.sort` are modelled by returning the new value; `__init__` is modelled by returning a new set (its sharing of the caller's dict is covered by the `Icons.New` line above).
- The icon resolver that walks `EXTENSION_ICONS` and `MIMETYPE_ICONS`, and the selection of a sort method from configuration: they live in files that are not part of this model. (Note that `pl` is listed both for `perl` and for `linux`; which wins depends on that resolver.)
- `xlsd/path.py` (wrappers over `os.path.isdir`, `os.stat`, `os.lstat`) and `setup.py`: filesystem queries and packaging; an entry's `is_dir()` outcome is an input.
