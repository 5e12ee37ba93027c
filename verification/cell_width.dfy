/** Terminal cell width of text, as `wcswidth` from the wcwidth library reports it.

    The library's Unicode width tables are not part of this model: the width
    measure is a parameter of every operation that needs it, and the facts the
    icon store relies on are collected in `WcswidthLaws`. */
module CellWidth {

  /** A measure of how many terminal cells a string occupies; wcswidth returns
      -1 for strings holding a non-printable character. */
  type WidthFn = string -> int

  /** `n` space characters, Python's `" " * n`. */
  function Blanks(n: nat): (r: string)
    ensures |r| == n
    ensures forall i :: 0 <= i < n ==> r[i] == ' '
  {
    seq(n, _ => ' ')
  }

  /** `text` with `lead` spaces before it and `trail` spaces after it. */
  function Surround(lead: nat, text: string, trail: nat): string
  {
    Blanks(lead) + text + Blanks(trail)
  }

  /** What wcswidth guarantees about the strings the icon store builds: the
      empty string is zero cells wide, a space, '?' and '❔' are one, one and
      two cells wide, and a space added on either side of a printable string
      adds the width of a space. */
  ghost predicate WcswidthLaws(wc: WidthFn)
  {
    && wc("") == 0
    && wc(" ") == 1
    && wc("?") == 1
    && wc("❔") == 2
    && (forall s: string :: 0 <= wc(s) ==> wc(" " + s) == wc(" ") + wc(s))
    && (forall s: string :: 0 <= wc(s) ==> wc(s + " ") == wc(s) + wc(" "))
  }

  /** Padding a printable string with spaces widens it by one cell per space. */
  lemma {:induction false} SurroundWidth(wc: WidthFn, lead: nat, text: string, trail: nat)
    requires WcswidthLaws(wc)
    requires 0 <= wc(text)
    ensures wc(Surround(lead, text, trail)) == lead + wc(text) + trail
    decreases lead, trail
  {
    if lead > 0 {
      SurroundWidth(wc, lead - 1, text, trail);
      assert Surround(lead, text, trail) == " " + Surround(lead - 1, text, trail);
    } else if trail > 0 {
      SurroundWidth(wc, 0, text, trail - 1);
      assert Surround(0, text, trail) == Surround(0, text, trail - 1) + " ";
    } else {
      assert Surround(0, text, 0) == text;
    }
  }

  /** A concrete width measure: two cells for '❔' and one for any other
      character. It exists to show that the laws of `WcswidthLaws` are
      consistent with one another. */
  function ModelWidth(s: string): (r: int)
  {
    if |s| == 0 then 0 else (if s[0] == '❔' then 2 else 1) + ModelWidth(s[1..])
  }

  lemma {:induction false} ModelWidthAppendSpace(s: string)
    ensures ModelWidth(s + " ") == ModelWidth(s) + 1
    decreases |s|
  {
    if |s| == 0 {
      assert s + " " == " ";
    } else {
      assert (s + " ")[1..] == s[1..] + " ";
      ModelWidthAppendSpace(s[1..]);
    }
  }

  /** The width laws are consistent: `ModelWidth` satisfies all of them, so
      requiring them is not vacuous. That the library's `wcswidth` obeys them
      on the strings the icon store builds is an assumption, not shown here. */
  lemma WcswidthLawsSatisfiable()
    ensures WcswidthLaws(ModelWidth)
  {
    assert ModelWidth("?") == 1 by { assert "?"[1..] == ""; }
    assert ModelWidth("❔") == 2 by { assert "❔"[1..] == ""; }
    assert ModelWidth(" ") == 1 by { assert " "[1..] == ""; }
    forall s: string | 0 <= ModelWidth(s)
      ensures ModelWidth(" " + s) == ModelWidth(" ") + ModelWidth(s)
    {
      assert (" " + s)[1..] == s;
    }
    forall s: string | 0 <= ModelWidth(s)
      ensures ModelWidth(s + " ") == ModelWidth(s) + ModelWidth(" ")
    {
      ModelWidthAppendSpace(s);
    }
  }
}
