/** The arithmetic of the partial-result combiners, on values.

    A partial invert result is an image (planes x pixels) with one accumulated
    weight per plane. Combining a list of them accumulates, per plane p and
    pixel j, the weight sum  Σ w_i[p]  and the weighted pixel sum
    Σ w_i[p] * image_i[p][j]  over the entries that are not None. These are the
    reference definitions the imperative combiners are proved against, and the
    lemmas below are the properties the combiners rely on: null entries and
    zero-weight entries are absorbed, the order of the entries does not matter,
    and combining the partials of a partition gives the combination of all the
    underlying entries. */
module Sums {
  import opened Wrappers

  /** Σ f(e) over es, accumulated from the left as the source's loops do. */
  function Total<T>(es: seq<T>, f: T -> real): (r: real)
  {
    if es == [] then 0.0 else Total(es[..|es| - 1], f) + f(es[|es| - 1])
  }

  lemma {:induction false} TotalAppend<T>(a: seq<T>, b: seq<T>, f: T -> real)
    ensures Total(a + b, f) == Total(a, f) + Total(b, f)
  {
    if b == [] {
      assert a + b == a;
    } else {
      assert (a + b)[..|a + b| - 1] == a + b[..|b| - 1];
      TotalAppend(a, b[..|b| - 1], f);
    }
  }

  lemma {:induction false} TotalOfZeros<T>(es: seq<T>, f: T -> real)
    requires forall i :: 0 <= i < |es| ==> f(es[i]) == 0.0
    ensures Total(es, f) == 0.0
  {
    if es != [] {
      TotalOfZeros(es[..|es| - 1], f);
    }
  }

  /** Any reordering of the entries gives the same total (exact arithmetic). */
  lemma {:induction false} TotalPermutation<T>(a: seq<T>, b: seq<T>, f: T -> real)
    requires multiset(a) == multiset(b)
    ensures Total(a, f) == Total(b, f)
  {
    if a == [] {
      assert |b| == |multiset(b)| == 0;
    } else {
      var n := |a| - 1;
      var x := a[n];
      assert a == a[..n] + [x];
      assert x in multiset(b);
      var k :| 0 <= k < |b| && b[k] == x;
      var rest := b[..k] + b[k + 1..];
      assert b == b[..k] + [x] + b[k + 1..];
      assert multiset(a[..n]) == multiset(a) - multiset{x} by {
        assert multiset(a) == multiset(a[..n]) + multiset{x};
      }
      assert multiset(rest) == multiset(b) - multiset{x} by {
        assert multiset(b) == multiset(b[..k]) + multiset{x} + multiset(b[k + 1..]);
        assert multiset(rest) == multiset(b[..k]) + multiset(b[k + 1..]);
      }
      TotalPermutation(a[..n], rest, f);
      TotalAppend(b[..k] + [x], b[k + 1..], f);
      TotalAppend(b[..k], [x], f);
      TotalAppend(b[..k], b[k + 1..], f);
      assert Total([x], f) == f(x) by {
        assert [x][..0] == [];
      }
    }
  }

  /** The concatenation of a list of lists. */
  function Flatten<T>(groups: seq<seq<T>>): (r: seq<T>)
  {
    if groups == [] then [] else Flatten(groups[..|groups| - 1]) + groups[|groups| - 1]
  }

  // ---------------------------------------------------------------------------
  // Partial invert results

  /** An invert result read as values: image[plane][pixel] and sumwt[plane]. */
  datatype Partial = Partial(image: seq<seq<real>>, sumwt: seq<real>)

  /** One scalar component of a combined invert result. */
  datatype Component = WeightOf(plane: nat) | PixelOf(plane: nat, pixel: nat)

  /** What one entry adds to a component: its weight for plane p, or its pixel
      (p, j) scaled by that weight, the per-plane weight being broadcast over
      the pixel axis. A None entry, or a reading outside the entry's shape,
      adds nothing. */
  function Contribution(e: Option<Partial>, c: Component): (r: real)
  {
    match e
    case None => 0.0
    case Some(v) =>
      match c
      case WeightOf(p) => if p < |v.sumwt| then v.sumwt[p] else 0.0
      case PixelOf(p, j) =>
        if p < |v.sumwt| && p < |v.image| && j < |v.image[p]| then v.sumwt[p] * v.image[p][j] else 0.0
  }

  /** The combined value of component c over a list of entries: the summed
      weight of a plane, or the weighted pixel sum (the accumulator before it is
      normalised). */
  function Combined(es: seq<Option<Partial>>, c: Component): (r: real)
  {
    Total(es, e => Contribution(e, c))
  }

  /** Predicate for a value of the given shape. */
  predicate Shaped(v: Partial, planes: nat, pixels: nat)
  {
    |v.image| == planes && |v.sumwt| == planes &&
    forall p :: 0 <= p < planes ==> |v.image[p]| == pixels
  }

  /** The accumulated result over a list of entries: pixel (p, j) is the
      weighted pixel sum and the weight of plane p the weight sum. */
  function Accumulate(es: seq<Option<Partial>>, planes: nat, pixels: nat): (r: Partial)
    ensures Shaped(r, planes, pixels)
    ensures forall p, j :: 0 <= p < planes && 0 <= j < pixels ==>
              r.image[p][j] == Combined(es, PixelOf(p, j))
    ensures forall p :: 0 <= p < planes ==> r.sumwt[p] == Combined(es, WeightOf(p))
  {
    Partial(seq(planes, p requires 0 <= p => seq(pixels, j requires 0 <= j => Combined(es, PixelOf(p, j)))),
            seq(planes, p requires 0 <= p => Combined(es, WeightOf(p))))
  }

  lemma {:induction false} CombinedAppend(a: seq<Option<Partial>>, b: seq<Option<Partial>>, c: Component)
    ensures Combined(a + b, c) == Combined(a, c) + Combined(b, c)
  {
    TotalAppend(a, b, e => Contribution(e, c));
  }

  /** Extending a list by one entry adds that entry's contribution. */
  lemma {:induction false} CombinedSnoc(es: seq<Option<Partial>>, e: Option<Partial>, c: Component)
    ensures Combined(es + [e], c) == Combined(es, c) + Contribution(e, c)
  {
    assert (es + [e])[..|es|] == es;
  }

  /** The combination of a two-entry list. */
  lemma CombinedOfTwo(es: seq<Option<Partial>>, c: Component)
    requires |es| == 2
    ensures Combined(es, c) == Contribution(es[0], c) + Contribution(es[1], c)
  {
    assert es == [es[0]] + [es[1]];
    assert [] + [es[0]] == [es[0]];
    CombinedOfNulls([], c);
    CombinedSnoc([], es[0], c);
    CombinedSnoc([es[0]], es[1], c);
  }

  /** A list of null entries combines to zero in every component. */
  lemma {:induction false} CombinedOfNulls(es: seq<Option<Partial>>, c: Component)
    requires forall i :: 0 <= i < |es| ==> es[i].None?
    ensures Combined(es, c) == 0.0
  {
    TotalOfZeros(es, e => Contribution(e, c));
  }

  /** A None entry anywhere in the list changes no component of the result. */
  lemma {:induction false} NullEntryAbsorbed(a: seq<Option<Partial>>, b: seq<Option<Partial>>, c: Component)
    ensures Combined(a + [None] + b, c) == Combined(a + b, c)
  {
    CombinedAppend(a + [None], b, c);
    CombinedSnoc(a, None, c);
    CombinedAppend(a, b, c);
  }

  /** An entry whose weights are all zero (what a null visibility slice is
      inverted to) changes no component of the result. */
  lemma {:induction false} ZeroWeightEntryAbsorbed(a: seq<Option<Partial>>, z: Partial, b: seq<Option<Partial>>, c: Component)
    requires forall p :: 0 <= p < |z.sumwt| ==> z.sumwt[p] == 0.0
    ensures Combined(a + [Some(z)] + b, c) == Combined(a + b, c)
  {
    CombinedAppend(a + [Some(z)], b, c);
    CombinedSnoc(a, Some(z), c);
    CombinedAppend(a, b, c);
  }

  /** The combined result does not depend on the order of the entries. */
  lemma OrderInsensitive(a: seq<Option<Partial>>, b: seq<Option<Partial>>, c: Component)
    requires multiset(a) == multiset(b)
    ensures Combined(a, c) == Combined(b, c)
  {
    TotalPermutation(a, b, e => Contribution(e, c));
  }

  /** Combining, for each group of a partition, one partial that stands for the
      whole group gives the combination of all entries of all groups. */
  lemma {:induction false} NestedCombination(groups: seq<seq<Option<Partial>>>, partials: seq<Option<Partial>>, c: Component)
    requires |partials| == |groups|
    requires forall g :: 0 <= g < |groups| ==> Contribution(partials[g], c) == Combined(groups[g], c)
    ensures Combined(partials, c) == Combined(Flatten(groups), c)
  {
    if groups != [] {
      var n := |groups| - 1;
      assert partials == partials[..n] + [partials[n]];
      NestedCombination(groups[..n], partials[..n], c);
      CombinedSnoc(partials[..n], partials[n], c);
      CombinedAppend(Flatten(groups[..n]), groups[n], c);
    }
  }

  /** The partial a group hands on after normalisation: every pixel of a plane
      with nonzero weight divided by that weight; the weights are kept. */
  function DivideByWeight(acc: Partial): (r: Partial)
  {
    Partial(seq(|acc.image|, p requires 0 <= p < |acc.image| =>
                  seq(|acc.image[p]|, j requires 0 <= j < |acc.image[p]| =>
                        if p < |acc.sumwt| && acc.sumwt[p] != 0.0 then acc.image[p][j] / acc.sumwt[p]
                        else acc.image[p][j])),
            acc.sumwt)
  }

  /** Where the weight is nonzero, a normalised partial stands for its group:
      scaling it back by its weight gives the group's accumulated pixel. */
  lemma NormalisedPartialStandsForGroup(group: seq<Option<Partial>>, planes: nat, pixels: nat, p: nat, j: nat)
    requires p < planes && j < pixels
    requires Combined(group, WeightOf(p)) != 0.0
    ensures Contribution(Some(DivideByWeight(Accumulate(group, planes, pixels))), PixelOf(p, j))
            == Combined(group, PixelOf(p, j))
    ensures Contribution(Some(DivideByWeight(Accumulate(group, planes, pixels))), WeightOf(p))
            == Combined(group, WeightOf(p))
  {
  }

  /** Weighted-combination equivalence: if every group of a partition is
      accumulated and normalised, and its plane-p weight is nonzero, then
      combining the normalised partials gives exactly the weight sum and the
      accumulator of the undivided list of entries. */
  lemma PartitionedCombination(groups: seq<seq<Option<Partial>>>, planes: nat, pixels: nat, p: nat, j: nat)
    requires p < planes && j < pixels
    requires forall g :: 0 <= g < |groups| ==> Combined(groups[g], WeightOf(p)) != 0.0
    ensures Combined(seq(|groups|, g requires 0 <= g < |groups| => Some(DivideByWeight(Accumulate(groups[g], planes, pixels)))), PixelOf(p, j))
            == Combined(Flatten(groups), PixelOf(p, j))
    ensures Combined(seq(|groups|, g requires 0 <= g < |groups| => Some(DivideByWeight(Accumulate(groups[g], planes, pixels)))), WeightOf(p))
            == Combined(Flatten(groups), WeightOf(p))
  {
    var partials := seq(|groups|, g requires 0 <= g < |groups| => Some(DivideByWeight(Accumulate(groups[g], planes, pixels))));
    forall g | 0 <= g < |groups|
      ensures Contribution(partials[g], PixelOf(p, j)) == Combined(groups[g], PixelOf(p, j))
      ensures Contribution(partials[g], WeightOf(p)) == Combined(groups[g], WeightOf(p))
    {
      NormalisedPartialStandsForGroup(groups[g], planes, pixels, p, j);
    }
    NestedCombination(groups, partials, PixelOf(p, j));
    NestedCombination(groups, partials, WeightOf(p));
  }

  // ---------------------------------------------------------------------------
  // Predicted visibilities

  /** What one predicted visibility adds to row k of the sum. */
  function VisAt(v: Option<seq<real>>, k: nat): (r: real)
  {
    if v.Some? && k < |v.value| then v.value[k] else 0.0
  }

  /** The element-wise sum, at row k, of the non-None visibilities. */
  function VisTotal(vs: seq<Option<seq<real>>>, k: nat): (r: real)
  {
    Total(vs, v => VisAt(v, k))
  }

  lemma {:induction false} VisTotalSnoc(vs: seq<Option<seq<real>>>, v: Option<seq<real>>, k: nat)
    ensures VisTotal(vs + [v], k) == VisTotal(vs, k) + VisAt(v, k)
  {
    assert (vs + [v])[..|vs|] == vs;
  }

  lemma {:induction false} VisTotalOfNulls(vs: seq<Option<seq<real>>>, k: nat)
    requires forall i :: 0 <= i < |vs| ==> vs[i].None?
    ensures VisTotal(vs, k) == 0.0
  {
    TotalOfZeros(vs, v => VisAt(v, k));
  }

  /** The predicted sum does not depend on the order of the entries. */
  lemma PredictOrderInsensitive(a: seq<Option<seq<real>>>, b: seq<Option<seq<real>>>, k: nat)
    requires multiset(a) == multiset(b)
    ensures VisTotal(a, k) == VisTotal(b, k)
  {
    TotalPermutation(a, b, v => VisAt(v, k));
  }

  /** Summing the predictions of two batches separately and adding gives the
      sum over both batches. */
  lemma PredictSplit(a: seq<Option<seq<real>>>, b: seq<Option<seq<real>>>, k: nat)
    ensures VisTotal(a + b, k) == VisTotal(a, k) + VisTotal(b, k)
  {
    TotalAppend(a, b, v => VisAt(v, k));
  }
}
