/** A row shape: the sequence of column widths of a row, and the merge that
    reconciles two shapes into one wide enough for both. */
module Shapes {
  import opened Either

  datatype Shape = Shape(widths: seq<nat>)

  const EmptyShape: Shape := Shape([])

  function Max(x: int, y: int): int
  {
    if x < y then y else x
  }

  /** The width at position `i`, a position past the end counting as 0. */
  function WidthAt(s: Shape, i: nat): nat
  {
    ElementOrDefault(s.widths, i, 0)
  }

  /** `big` is at least as long as `small` and at least as wide at every
      position of `small`. */
  predicate Covers(big: Shape, small: Shape)
  {
    && |small.widths| <= |big.widths|
    && forall i :: 0 <= i < |small.widths| ==> small.widths[i] <= big.widths[i]
  }

  /** Each width of `longer` raised to the width of `other` at the same
      position (0 where `other` is shorter). */
  function MergeColumnWidths(longer: Shape, other: Shape): (r: Shape)
    ensures |r.widths| == |longer.widths|
  {
    Shape(seq(|longer.widths|, i requires 0 <= i < |longer.widths| =>
      Max(longer.widths[i], WidthAt(other, i))))
  }

  /** The shape wide enough for both `s` and `other`: as long as the longer
      one, and at each position the larger width, a missing position
      counting as 0. On equal lengths AlignColumns.js calls `other` the longer. */
  function Merge(s: Shape, other: Shape): (r: Shape)
    ensures |r.widths| == Max(|s.widths|, |other.widths|)
    ensures forall i :: 0 <= i < |r.widths| ==>
      r.widths[i] == Max(WidthAt(s, i), WidthAt(other, i))
  {
    if |s.widths| > |other.widths| then MergeColumnWidths(s, other)
    else MergeColumnWidths(other, s)
  }

  lemma MergeCommutative(a: Shape, b: Shape)
    ensures Merge(a, b) == Merge(b, a)
  {
  }

  lemma MergeEmptyIdentity(a: Shape)
    ensures Merge(a, EmptyShape) == a
    ensures Merge(EmptyShape, a) == a
  {
  }

  lemma MergeIdempotent(a: Shape)
    ensures Merge(a, a) == a
  {
  }

  lemma MergeAssociative(a: Shape, b: Shape, c: Shape)
    ensures Merge(Merge(a, b), c) == Merge(a, Merge(b, c))
  {
    var l := Merge(Merge(a, b), c);
    var r := Merge(a, Merge(b, c));
    forall i | 0 <= i < |l.widths|
      ensures l.widths[i] == r.widths[i]
    {
      assert WidthAt(Merge(a, b), i) == Max(WidthAt(a, i), WidthAt(b, i));
      assert WidthAt(Merge(b, c), i) == Max(WidthAt(b, i), WidthAt(c, i));
    }
  }

  lemma CoversReflexive(a: Shape)
    ensures Covers(a, a)
  {
  }

  lemma CoversTransitive(a: Shape, b: Shape, c: Shape)
    requires Covers(a, b) && Covers(b, c)
    ensures Covers(a, c)
  {
  }

  /** Two shapes that cover each other are the same shape. */
  lemma CoversAntisymmetric(a: Shape, b: Shape)
    requires Covers(a, b) && Covers(b, a)
    ensures a == b
  {
  }

  /** The merge is the least upper bound of its two inputs with respect to
      `Covers`: it covers both, and every shape covering both covers it. */
  lemma MergeLeastUpperBound(a: Shape, b: Shape, c: Shape)
    ensures Covers(Merge(a, b), a) && Covers(Merge(a, b), b)
    ensures Covers(c, a) && Covers(c, b) ==> Covers(c, Merge(a, b))
  {
  }
}
