/** The directory entries the sort methods of xlsd/__init__.py order, and the
    case-insensitive name they are ordered by. */
module Entries {

  /** What `is_dir()` does for an entry: answer yes, answer no, or raise an
      OSError (a circular symbolic link, for instance). The answer is taken
      as given, since the filesystem query behind it is not modelled. */
  datatype DirCheck = Dir | NotDir | OsErr

  /** A filesystem entry: its base name and the outcome of asking whether it
      is a directory. */
  datatype PathEntry = PathEntry(name: string, isDir: DirCheck)

  predicate IsUpper(c: char)
  {
    'A' <= c <= 'Z'
  }

  /** ASCII lower-casing of one character. */
  function LowerChar(c: char): (r: char)
    ensures !IsUpper(r)
    ensures !IsUpper(c) ==> r == c
  {
    if IsUpper(c) then (c as int + 32) as char else c
  }

  /** `_direntry_lowercase_name`: the entry's name in lower case, the key the
      sort methods order entries by. */
  function LowercaseName(entry: PathEntry): (r: string)
    ensures |r| == |entry.name|
    ensures forall i :: 0 <= i < |r| ==> !IsUpper(r[i])
    ensures forall i :: 0 <= i < |r| && !IsUpper(entry.name[i]) ==> r[i] == entry.name[i]
    ensures forall i :: 0 <= i < |r| && IsUpper(entry.name[i]) ==> r[i] as int == entry.name[i] as int + 32
  {
    seq(|entry.name|, i requires 0 <= i < |entry.name| => LowerChar(entry.name[i]))
  }

  /** Two characters that are equal, or the upper- and lower-case forms of
      one ASCII letter. */
  predicate SameLetterIgnoringCase(x: char, y: char)
  {
    || x == y
    || (IsUpper(x) && y as int == x as int + 32)
    || (IsUpper(y) && x as int == y as int + 32)
  }

  /** Two names that differ at most in the case of ASCII letters. */
  predicate EqualIgnoringCase(a: string, b: string)
  {
    |a| == |b| && forall i :: 0 <= i < |a| ==> SameLetterIgnoringCase(a[i], b[i])
  }

  /** Two entries get the same sort key exactly when their names differ at
      most in letter case. */
  lemma LowercaseNameIgnoresCase(a: PathEntry, b: PathEntry)
    ensures LowercaseName(a) == LowercaseName(b) <==> EqualIgnoringCase(a.name, b.name)
  {
    if EqualIgnoringCase(a.name, b.name) {
      forall i | 0 <= i < |a.name|
        ensures LowercaseName(a)[i] == LowercaseName(b)[i]
      {
        assert SameLetterIgnoringCase(a.name[i], b.name[i]);
      }
    }
    if LowercaseName(a) == LowercaseName(b) {
      forall i | 0 <= i < |a.name|
        ensures SameLetterIgnoringCase(a.name[i], b.name[i])
      {
        assert LowerChar(a.name[i]) == LowercaseName(a)[i];
        assert LowerChar(b.name[i]) == LowercaseName(b)[i];
      }
    }
  }
}
