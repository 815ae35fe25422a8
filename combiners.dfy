/** The partial-result combiners that the graph nodes run once partitioned
    invert or predict work has finished: sum_invert_results and
    sum_predict_results, and the empty result an invert of a null slice gives. */
module Combiners {
  import opened Wrappers
  import opened Sums
  import opened DataModel
  import opened ArrayOps

  /** acc and w hold the accumulator and the weight sum of the entries es. */
  ghost predicate Accumulates(acc: array2<real>, w: array<real>, es: seq<Option<Partial>>)
    reads acc, w
  {
    w.Length == acc.Length0 &&
    (forall p, j :: 0 <= p < acc.Length0 && 0 <= j < acc.Length1 ==> acc[p, j] == Combined(es, PixelOf(p, j))) &&
    (forall p :: 0 <= p < w.Length ==> w[p] == Combined(es, WeightOf(p)))
  }

  /** The first contributor: `im = copy_image(arg[0]); im.data *= scale`. After
      only null entries es, the copy holds the accumulator of es + [e], and e's
      own weights are the weight sum. */
  method StartAccumulator(e: InvertResult, ghost es: seq<Option<Partial>>) returns (im: Image)
    requires forall k :: 0 <= k < |es| ==> es[k].None?
    requires e.sumwt.Length == Planes(e)
    ensures fresh(im) && fresh(im.data)
    ensures im.data.Length0 == Planes(e) && im.data.Length1 == Pixels(e)
    ensures Accumulates(im.data, e.sumwt, es + [PartialOf(Some(e))])
  {
    ghost var img := ImageValue(e.image.data);
    ghost var wt := e.sumwt[..];
    ghost var v := Some(Partial(img, wt));
    assert v == PartialOf(Some(e));
    im := CopyImage(e.image);
    ScaleRows(im.data, e.sumwt);
    forall p, j | 0 <= p < im.data.Length0 && 0 <= j < im.data.Length1
      ensures im.data[p, j] == Combined(es + [v], PixelOf(p, j))
    {
      assert Contribution(v, PixelOf(p, j)) == wt[p] * img[p][j];
      CombinedOfNulls(es, PixelOf(p, j));
      CombinedSnoc(es, v, PixelOf(p, j));
    }
    forall p | 0 <= p < e.sumwt.Length
      ensures e.sumwt[p] == Combined(es + [v], WeightOf(p))
    {
      assert Contribution(v, WeightOf(p)) == wt[p];
      CombinedOfNulls(es, WeightOf(p));
      CombinedSnoc(es, v, WeightOf(p));
    }
  }

  /** A later contributor: `im.data += scale * arg[0].data; sumwt += arg[1]`. */
  method AccumulateEntry(acc: array2<real>, w: array<real>, e: InvertResult, ghost es: seq<Option<Partial>>)
    requires Accumulates(acc, w, es)
    requires Conforms(Some(e), acc.Length0, acc.Length1)
    requires acc != e.image.data && w != e.sumwt
    modifies acc, w
    ensures Accumulates(acc, w, es + [old(PartialOf(Some(e)))])
  {
    ghost var v := PartialOf(Some(e));
    ghost var img := ImageValue(e.image.data);
    ghost var wt := e.sumwt[..];
    assert v == Some(Partial(img, wt));
    AddScaledRows(acc, e.image.data, e.sumwt);
    AddInto(w, e.sumwt);
    forall p, j | 0 <= p < acc.Length0 && 0 <= j < acc.Length1
      ensures acc[p, j] == Combined(es + [v], PixelOf(p, j))
    {
      assert Contribution(v, PixelOf(p, j)) == wt[p] * img[p][j];
      CombinedSnoc(es, v, PixelOf(p, j));
    }
    forall p | 0 <= p < w.Length
      ensures w[p] == Combined(es + [v], WeightOf(p))
    {
      assert Contribution(v, WeightOf(p)) == wt[p];
      CombinedSnoc(es, v, WeightOf(p));
    }
  }

  /** A None entry leaves the accumulator as it is. */
  lemma NullStep(acc: array2<real>, w: array<real>, es: seq<Option<Partial>>)
    requires Accumulates(acc, w, es)
    ensures Accumulates(acc, w, es + [None])
  {
    forall c: Component ensures Combined(es + [None], c) == Combined(es, c) {
      CombinedSnoc(es, None, c);
    }
  }

  /** The iterations of the sum_invert_results loop after the first non-None
      entry (the `else` branch of `if first`): from index `from` on, every
      non-None entry is added into acc and w scaled by its weights, and the
      first entry whose shape differs from acc's stops the loop. ok says
      whether every remaining entry had acc's shape. */
  method AccumulateFrom(list: seq<Option<InvertResult>>, from: nat, acc: array2<real>, w: array<real>,
                        ghost snap: seq<Option<Partial>>) returns (ok: bool)
    requires from <= |list| == |snap|
    requires forall k :: from <= k < |list| ==> PartialOf(list[k]) == snap[k]
    requires forall k :: from <= k < |list| && list[k].Some? ==> list[k].value.image.data != acc && list[k].value.sumwt != w
    requires Accumulates(acc, w, snap[..from])
    modifies acc, w
    ensures ok <==> forall k :: from <= k < |list| ==> Conforms(list[k], acc.Length0, acc.Length1)
    ensures ok ==> Accumulates(acc, w, snap)
  {
    for i := from to |list|
      invariant forall k :: i <= k < |list| ==> PartialOf(list[k]) == snap[k]
      invariant forall k :: from <= k < i ==> Conforms(list[k], acc.Length0, acc.Length1)
      invariant Accumulates(acc, w, snap[..i])
    {
      assert snap[..i + 1] == snap[..i] + [snap[i]];
      if list[i].None? {
        NullStep(acc, w, snap[..i]);
      } else {
        if !Conforms(list[i], acc.Length0, acc.Length1) {
          return false;
        }
        AccumulateEntry(acc, w, list[i].value, snap[..i]);
      }
    }
    assert snap[..|list|] == snap;
    return true;
  }

  /** Weighted accumulation of (image, sumwt) pairs, skipping None entries.
      The first non-None image is copied and scaled by its weight; every later
      one is added scaled by its weight, and the weights are summed. An empty
      or all-None list is the "No invert results" error, and an entry whose
      shape differs from the first's is the error numpy raises.
      The source's single loop with its `first` flag is written as the scan to
      the first non-None entry followed by AccumulateFrom for the rest.
      The result is the accumulator and the weight sum, fresh objects: no input
      is modified. The final normalize_sumwt call is not part of the model.
      This version copies the first weight array where the source aliases it
      (see SumInvertResultsAsWritten). */
  method SumInvertResults(list: seq<Option<InvertResult>>) returns (r: Result<InvertResult>)
    ensures r.Err? <==> !HasResult(list) || !ShapesAgree(list)
    ensures r.Err? ==> r.error == if HasResult(list) then ShapeMismatch else NoInvertResults
    ensures r.Ok? ==> fresh(r.value.image) && fresh(r.value.image.data) && fresh(r.value.sumwt)
    ensures r.Ok? ==> Conforms(Some(r.value), Planes(list[FirstSome(list)].value), Pixels(list[FirstSome(list)].value))
    ensures r.Ok? ==> forall p, j :: 0 <= p < Planes(r.value) && 0 <= j < Pixels(r.value) ==>
              r.value.image.data[p, j] == Combined(old(Snapshot(list)), PixelOf(p, j))
    ensures r.Ok? ==> forall p :: 0 <= p < Planes(r.value) ==>
              r.value.sumwt[p] == Combined(old(Snapshot(list)), WeightOf(p))
  {
    ghost var snap := Snapshot(list);
    var i := FirstResult(list);
    if i == |list| {
      return Err(NoInvertResults);
    }
    var arg := list[i].value;
    ShapesAgreeFrom(list);
    if !Conforms(list[i], Planes(arg), Pixels(arg)) {
      return Err(ShapeMismatch);
    }
    var sumwt := CopyArray(arg.sumwt);
    assert PartialOf(Some(InvertResult(arg.image, sumwt))) == snap[i];
    var im := StartAccumulator(InvertResult(arg.image, sumwt), snap[..i]);
    assert snap[..i + 1] == snap[..i] + [snap[i]];
    var ok := AccumulateFrom(list, i + 1, im.data, sumwt, snap);
    if !ok {
      return Err(ShapeMismatch);
    }
    return Ok(InvertResult(im, sumwt));
  }

  /** The `if arg is not None` / `first` scan: the index of the first non-None
      entry, |list| when there is none. */
  method FirstResult<T>(list: seq<Option<T>>) returns (i: nat)
    ensures i == FirstSome(list)
  {
    i := 0;
    while i < |list| && list[i].None?
      invariant i <= FirstSome(list)
    {
      i := i + 1;
    }
  }

  /** sum_invert_results as written: `sumwt = arg[1]` binds the accumulated
      weight to the first entry's own weight array, so every later
      `sumwt += arg[1]` adds into that input array. The image accumulator is a
      copy, as in SumInvertResults. */
  method SumInvertResultsAsWritten(list: seq<Option<InvertResult>>) returns (r: Result<InvertResult>)
    requires DistinctWeights(list)
    modifies WeightArrays(list)
    ensures r.Err? <==> !HasResult(list) || !ShapesAgree(list)
    ensures r.Err? ==> r.error == if HasResult(list) then ShapeMismatch else NoInvertResults
    ensures r.Ok? ==> fresh(r.value.image) && fresh(r.value.image.data)
    ensures r.Ok? ==> r.value.sumwt == list[FirstSome(list)].value.sumwt
    ensures r.Ok? ==> Conforms(Some(r.value), Planes(list[FirstSome(list)].value), Pixels(list[FirstSome(list)].value))
    ensures r.Ok? ==> forall p, j :: 0 <= p < Planes(r.value) && 0 <= j < Pixels(r.value) ==>
              r.value.image.data[p, j] == Combined(old(Snapshot(list)), PixelOf(p, j))
    ensures r.Ok? ==> forall p :: 0 <= p < Planes(r.value) ==>
              r.value.sumwt[p] == Combined(old(Snapshot(list)), WeightOf(p))
    ensures forall k :: 0 <= k < |list| && k != FirstSome(list) && list[k].Some? ==>
              list[k].value.sumwt[..] == old(list[k].value.sumwt[..])
  {
    ghost var snap := Snapshot(list);
    var i := FirstResult(list);
    if i == |list| {
      return Err(NoInvertResults);
    }
    var arg := list[i].value;
    ShapesAgreeFrom(list);
    if !Conforms(list[i], Planes(arg), Pixels(arg)) {
      return Err(ShapeMismatch);
    }
    var im := StartAccumulator(arg, snap[..i]);
    var sumwt := arg.sumwt;
    assert snap[..i + 1] == snap[..i] + [snap[i]];
    var ok := AccumulateFrom(list, i + 1, im.data, sumwt, snap);
    if !ok {
      return Err(ShapeMismatch);
    }
    return Ok(InvertResult(im, sumwt));
  }

  method OnePixel(x: real) returns (im: Image)
    ensures fresh(im.data) && im.data.Length0 == 1 && im.data.Length1 == 1 && im.data[0, 0] == x
  {
    var d := new real[1, 1];
    d[0, 0] := x;
    im := new Image(d);
  }

  method OneWeight(x: real) returns (w: array<real>)
    ensures fresh(w) && w.Length == 1 && w[0] == x
  {
    w := new real[1];
    w[0] := x;
  }

  /** Two one-pixel results with weights 1 and 2 in fresh arrays. */
  method TwoResults() returns (list: seq<Option<InvertResult>>, w1: array<real>, w2: array<real>)
    ensures fresh(w1) && fresh(w2) && WeightArrays(list) == {w1, w2}
    ensures |list| == 2 && list[0].Some? && list[0].value.sumwt == w1 && w1.Length == 1 && w1[0] == 1.0
    ensures DistinctWeights(list) && HasResult(list) && FirstSome(list) == 0 && ShapesAgree(list)
    ensures Combined(Snapshot(list), WeightOf(0)) == 3.0
  {
    var im1 := OnePixel(5.0);
    var im2 := OnePixel(7.0);
    w1 := OneWeight(1.0);
    w2 := OneWeight(2.0);
    list := [Some(InvertResult(im1, w1)), Some(InvertResult(im2, w2))];
    assert FirstSome(list) == 0;
    ghost var snap := Snapshot(list);
    assert Contribution(snap[0], WeightOf(0)) == 1.0 by {
      assert snap[0] == PartialOf(list[0]);
      assert snap[0].value.sumwt == w1[..];
    }
    assert Contribution(snap[1], WeightOf(0)) == 2.0 by {
      assert snap[1] == PartialOf(list[1]);
      assert snap[1].value.sumwt == w2[..];
    }
    CombinedOfTwo(snap, WeightOf(0));
  }

  /** For those two results, the first input's weight array, which held 1,
      holds the total 3 after the call. */
  method WeightAliasingWitness() returns (before: real, after: real)
    ensures before == 1.0 && after == 3.0
  {
    var list, w1, w2 := TwoResults();
    before := w1[0];
    var r := SumInvertResultsAsWritten(list);
    assert r.Ok?;
    after := w1[0];
  }

  /** The None branch of invert_ignore_none: an empty image like the model and
      zero weights of shape [nchan, npol]. Such an entry changes nothing in a
      later sum (Sums.ZeroWeightEntryAbsorbed). */
  method EmptyInvertResult(model: Image) returns (e: InvertResult)
    ensures fresh(e.image) && fresh(e.image.data) && fresh(e.sumwt)
    ensures Conforms(Some(e), model.data.Length0, model.data.Length1)
    ensures forall p, j :: 0 <= p < Planes(e) && 0 <= j < Pixels(e) ==> e.image.data[p, j] == 0.0
    ensures forall p :: 0 <= p < e.sumwt.Length ==> e.sumwt[p] == 0.0
  {
    var im := EmptyImageLike(model);
    var w := new real[model.data.Length0](k => 0.0);
    e := InvertResult(im, w);
  }

  // ---------------------------------------------------------------------------

  /** Every non-None visibility has the same number of rows as the first. */
  predicate RowsAgree(results: seq<Option<Visibility>>)
  {
    FirstSome(results) < |results| ==>
      forall k :: 0 <= k < |results| && results[k].Some? ==>
        results[k].value.vis.Length == results[FirstSome(results)].value.vis.Length
  }

  /** Element-wise sum of the 'vis' columns of the non-None predicted
      visibilities; None when every entry is None. The first non-None entry is
      copied before anything is added, so no input is modified. */
  method SumPredictResults(results: seq<Option<Visibility>>) returns (r: Result<Option<Visibility>>)
    ensures r.Err? <==> !RowsAgree(results)
    ensures r.Err? ==> r.error == ShapeMismatch
    ensures r.Ok? ==> (r.value.None? <==> FirstSome(results) == |results|)
    ensures r.Ok? && r.value.Some? ==>
              fresh(r.value.value) && fresh(r.value.value.vis) &&
              r.value.value.vis.Length == results[FirstSome(results)].value.vis.Length &&
              forall k :: 0 <= k < r.value.value.vis.Length ==> r.value.value.vis[k] == VisTotal(VisSnapshot(results), k)
  {
    ghost var snap := VisSnapshot(results);
    var sum: Visibility? := null;
    for i := 0 to |results|
      invariant VisSnapshot(results) == snap
      invariant sum == null <==> i <= FirstSome(results)
      invariant sum != null ==> fresh(sum) && fresh(sum.vis) && sum.vis.Length == results[FirstSome(results)].value.vis.Length
      invariant sum != null ==> forall k :: 0 <= k < i && results[k].Some? ==> results[k].value.vis.Length == sum.vis.Length
      invariant sum != null ==> forall k :: 0 <= k < sum.vis.Length ==> sum.vis[k] == VisTotal(snap[..i], k)
    {
      assert snap[..i + 1] == snap[..i] + [snap[i]];
      if results[i].Some? {
        var result := results[i].value;
        if sum == null {
          sum := CopyVisibility(result);
          forall k | 0 <= k < sum.vis.Length ensures sum.vis[k] == VisTotal(snap[..i + 1], k) {
            VisTotalOfNulls(snap[..i], k);
            VisTotalSnoc(snap[..i], snap[i], k);
          }
        } else {
          if result.vis.Length != sum.vis.Length {
            return Err(ShapeMismatch);
          }
          AddInto(sum.vis, result.vis);
          forall k | 0 <= k < sum.vis.Length ensures sum.vis[k] == VisTotal(snap[..i + 1], k) {
            VisTotalSnoc(snap[..i], snap[i], k);
          }
        }
      } else if sum != null {
        forall k | 0 <= k < sum.vis.Length ensures sum.vis[k] == VisTotal(snap[..i + 1], k) {
          VisTotalSnoc(snap[..i], snap[i], k);
        }
      }
    }
    assert snap[..|results|] == snap;
    if sum == null {
      return Ok(None);
    }
    return Ok(Some(sum));
  }
}
