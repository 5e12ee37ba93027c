/** The IconSet of xlsd/icons.py: a key-to-glyph store whose lookups are all
    padded with spaces to one common width, so that icons line up in columns. */
module Icons {
  import opened Wrappers
  import opened CellWidth

  /** Glyphs by key, and the cached width every returned icon is padded to. */
  datatype IconSet<K> = IconSet(icons: map<K, string>, width: int)

  /** The error `_pad_icon` raises (a ValueError) for an icon wider than the set. */
  datatype PadError = IconWiderThanSet

  /** `m` is the larger of 0 and the widest glyph of `icons`. */
  ghost predicate IsMaxWidth<K>(wc: WidthFn, icons: map<K, string>, m: int)
  {
    && 0 <= m
    && (forall k :: k in icons ==> wc(icons[k]) <= m)
    && (m == 0 || exists k :: k in icons && wc(icons[k]) == m)
  }

  /** The IconSet invariant: the cached width is the width of its widest glyph
      (or 0). The constructor and `add` both re-establish it. */
  ghost predicate Valid<K>(wc: WidthFn, s: IconSet<K>)
  {
    IsMaxWidth(wc, s.icons, s.width)
  }

  /** Every stored glyph is printable, i.e. has a non-negative width. */
  ghost predicate Printable<K>(wc: WidthFn, s: IconSet<K>)
  {
    forall k :: k in s.icons ==> 0 <= wc(s.icons[k])
  }

  /** There is only one maximum width for a given glyph map. */
  lemma MaxWidthUnique<K>(wc: WidthFn, icons: map<K, string>, m1: int, m2: int)
    requires IsMaxWidth(wc, icons, m1) && IsMaxWidth(wc, icons, m2)
    ensures m1 == m2
  {
  }

  /** `_compute_width`: a running maximum over the glyphs, starting from 0. */
  method ComputeWidth<K>(wc: WidthFn, icons: map<K, string>) returns (maximum: int)
    ensures IsMaxWidth(wc, icons, maximum)
  {
    maximum := 0;
    var rest := icons.Keys;
    while rest != {}
      invariant rest <= icons.Keys
      invariant IsMaxWidth(wc, icons - rest, maximum)
      decreases rest
    {
      var k :| k in rest;
      var seen := icons - (rest - {k});
      assert seen == (icons - rest)[k := icons[k]];
      var w := wc(icons[k]);
      if maximum < w {
        assert k in seen && wc(seen[k]) == w;
      } else if maximum != 0 {
        var j :| j in icons - rest && wc(icons[j]) == maximum;
        assert j in seen && wc(seen[j]) == maximum;
      }
      maximum := if maximum >= w then maximum else w;
      rest := rest - {k};
    }
    assert icons - rest == icons;
  }

  /** `IconSet(icons)`: store the glyphs and cache their maximum width. */
  method New<K>(wc: WidthFn, icons: map<K, string>) returns (s: IconSet<K>)
    ensures s.icons == icons
    ensures Valid(wc, s)
  {
    var width := ComputeWidth(wc, icons);
    s := IconSet(icons, width);
  }

  /** `add`: store `icon` under `key`, replacing any previous glyph, and
      recompute the cached width. */
  method Add<K>(wc: WidthFn, s: IconSet<K>, key: K, icon: string) returns (t: IconSet<K>)
    ensures t.icons.Keys == s.icons.Keys + {key}
    ensures t.icons[key] == icon
    ensures forall k :: k in s.icons && k != key ==> t.icons[k] == s.icons[k]
    ensures Valid(wc, t)
  {
    var icons := s.icons[key := icon];
    var width := ComputeWidth(wc, icons);
    t := IconSet(icons, width);
  }

  /** Adding a glyph under a fresh key widens the set exactly when the glyph
      is wider than the set. */
  lemma AddFreshKeyWidth<K>(wc: WidthFn, s: IconSet<K>, t: IconSet<K>, key: K, icon: string)
    requires Valid(wc, s) && Valid(wc, t)
    requires key !in s.icons && t.icons == s.icons[key := icon]
    ensures t.width == if wc(icon) > s.width then wc(icon) else s.width
  {
    var m := if wc(icon) > s.width then wc(icon) else s.width;
    if m != 0 && m == s.width {
      var k :| k in s.icons && wc(s.icons[k]) == m;
      assert k in t.icons && wc(t.icons[k]) == m;
    }
    assert key in t.icons && wc(t.icons[key]) == wc(icon);
    assert IsMaxWidth(wc, t.icons, m);
    MaxWidthUnique(wc, t.icons, m, t.width);
  }

  /** `_pad_icon`: centre `icon` in the set's width with spaces, the trailing
      run taking the odd space; an icon wider than the set is an error. */
  function Pad<K>(wc: WidthFn, s: IconSet<K>, icon: string): (r: Result<string, PadError>)
    ensures r.Failure? <==> wc(icon) > s.width
    ensures wc(icon) == s.width ==> r == Success(icon)
    ensures r.Success? ==>
      exists lead: nat, trail: nat ::
        && lead + trail == s.width - wc(icon)
        && lead <= trail <= lead + 1
        && r.value == Surround(lead, icon, trail)
  {
    var toAdd := s.width - wc(icon);
    if toAdd < 0 then
      Failure(IconWiderThanSet)
    else if toAdd == 0 then
      assert Surround(0, icon, 0) == icon;
      Success(icon)
    else
      var right := toAdd / 2;
      var left := toAdd - right;
      Success(Surround(right, icon, left))
  }

  /** A printable icon that fits is padded to exactly the set's width. */
  lemma PadWidth<K>(wc: WidthFn, s: IconSet<K>, icon: string)
    requires WcswidthLaws(wc)
    requires wc(icon) <= s.width
    ensures Pad(wc, s, icon).Success?
    ensures 0 <= wc(icon) ==> wc(Pad(wc, s, icon).value) == s.width
  {
    if 0 <= wc(icon) {
      var lead: nat, trail: nat :|
        && lead + trail == s.width - wc(icon)
        && Pad(wc, s, icon).value == Surround(lead, icon, trail);
      SurroundWidth(wc, lead, icon, trail);
    }
  }

  /** The unpadded default glyph for a set of the given width. */
  function DefaultGlyph(width: int): string
  {
    if width == 1 then "?" else if width > 1 then "❔" else ""
  }

  /** `get_default`: a placeholder icon of exactly the set's width; it never
      raises. */
  function GetDefault<K>(wc: WidthFn, s: IconSet<K>): (r: string)
    requires WcswidthLaws(wc)
    requires Valid(wc, s)
    ensures wc(r) == s.width
    ensures s.width == 0 ==> r == ""
    ensures s.width == 1 ==> r == "?"
    ensures s.width >= 2 ==>
      exists lead: nat, trail: nat ::
        && lead + trail == s.width - 2
        && lead <= trail <= lead + 1
        && r == Surround(lead, "❔", trail)
  {
    PadWidth(wc, s, DefaultGlyph(s.width));
    Pad(wc, s, DefaultGlyph(s.width)).value
  }

  /** `get`: the stored glyph padded to the set's width, or the default icon
      for a missing key. Padding a stored glyph never fails, because the set
      is as wide as its widest glyph. */
  function Get<K>(wc: WidthFn, s: IconSet<K>, key: K): (r: string)
    requires WcswidthLaws(wc)
    requires Valid(wc, s)
    ensures key in s.icons ==> Pad(wc, s, s.icons[key]) == Success(r)
    ensures key !in s.icons ==> r == GetDefault(wc, s)
    ensures (key in s.icons ==> 0 <= wc(s.icons[key])) ==> wc(r) == s.width
  {
    if key in s.icons then
      PadWidth(wc, s, s.icons[key]);
      Pad(wc, s, s.icons[key]).value
    else
      GetDefault(wc, s)
  }

  /** `get_or_none`: None exactly for a missing key, otherwise what `get`
      returns. */
  function GetOrNone<K>(wc: WidthFn, s: IconSet<K>, key: K): (r: Option<string>)
    requires Valid(wc, s)
    ensures r.None? <==> key !in s.icons
    ensures r.Some? ==> Pad(wc, s, s.icons[key]) == Success(r.value)
    ensures WcswidthLaws(wc) && r.Some? ==> r.value == Get(wc, s, key)
  {
    if key in s.icons then Some(Pad(wc, s, s.icons[key]).value) else None
  }

  /** The IconSet's promise: every icon it hands out, stored or default, has
      the same width, the set's width. */
  lemma UniformWidth<K>(wc: WidthFn, s: IconSet<K>, key1: K, key2: K)
    requires WcswidthLaws(wc)
    requires Valid(wc, s)
    requires Printable(wc, s)
    ensures wc(Get(wc, s, key1)) == wc(Get(wc, s, key2)) == wc(GetDefault(wc, s)) == s.width
    ensures GetOrNone(wc, s, key1).Some? ==> wc(GetOrNone(wc, s, key1).value) == s.width
  {
  }

  /** After `add(key, icon)`, `get(key)` is `icon` padded to the new width, and
      every other stored key still yields its own glyph, padded to the new
      width. */
  lemma GetAfterAdd<K>(wc: WidthFn, s: IconSet<K>, t: IconSet<K>, key: K, icon: string)
    requires WcswidthLaws(wc)
    requires Valid(wc, t)
    requires t.icons == s.icons[key := icon]
    ensures Pad(wc, t, icon) == Success(Get(wc, t, key))
    ensures forall k :: k in s.icons && k != key ==> Pad(wc, t, s.icons[k]) == Success(Get(wc, t, k))
    ensures forall k :: k !in s.icons && k != key ==> Get(wc, t, k) == GetDefault(wc, t)
  {
  }
}
