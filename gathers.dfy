/** The gather node bodies of the invert and predict graphs. Each walks the
    partitions of the whole (facet patches of an image, row blocks of a
    visibility) in order and writes the next partition result into the next
    partition, with a counter that only advances on some partitions. The
    partitions come from the image and visibility iterators of the imaging
    context, which are not part of this model: they are parameters here, each
    partition an injective map from local to global indices. */
module Gathers {
  import opened Wrappers
  import opened DataModel
  import opened ArrayOps

  /** Facet patches: pixel maps into an image with `pixels` pixels, no two
      sharing a pixel, as the raster iterator yields them. */
  predicate Tiling(patches: seq<seq<nat>>, pixels: nat)
  {
    (forall k :: 0 <= k < |patches| ==> InRange(patches[k], pixels) && Injective(patches[k])) &&
    (forall k, k', t :: 0 <= k < |patches| && 0 <= k' < |patches| && k != k' && 0 <= t < |patches[k]| ==>
       patches[k][t] !in patches[k'])
  }

  /** Result k is an image that fits patch k of a planes-plane image. */
  predicate PatchFits(results: seq<Option<InvertResult>>, planes: nat, patches: seq<seq<nat>>, k: nat)
    requires k < |results| && k < |patches|
  {
    results[k].Some? &&
    results[k].value.image.data.Length0 == planes && results[k].value.image.data.Length1 == |patches[k]|
  }

  /** The number of patches that receive a result: the counter stops at the
      first None result, and there are only |patches| patches. */
  function Written(results: seq<Option<InvertResult>>, patches: seq<seq<nat>>): (r: nat)
  {
    Min(LeadingSome(results), |patches|)
  }

  /** The exception gather_image_iteration_results raises, in the order the
      loop meets them: a result of the wrong shape for its patch, indexing past
      the last result while patches remain, and then `results[0][1]` on an
      empty list or on a None first result. */
  function GatherImageFault(results: seq<Option<InvertResult>>, planes: nat, patches: seq<seq<nat>>): (r: Option<Error>)
  {
    var m := LeadingSome(results);
    if exists k :: 0 <= k < Written(results, patches) && !PatchFits(results, planes, patches, k) then Some(ShapeMismatch)
    else if m == |results| && |results| < |patches| then Some(IndexOutOfRange)
    else if |results| == 0 then Some(IndexOutOfRange)
    else if results[0].None? then Some(NoneResult)
    else None
  }

  /** Pixel g lies in none of the patches. */
  predicate Uncovered(patches: seq<seq<nat>>, g: nat)
  {
    forall q :: 0 <= q < |patches| ==> g !in patches[q]
  }

  /** Writes the facet results into an empty image like the template, patch
      by patch; the counter i moves to the next result only when results[i] is
      not None, so once a None result is met every later patch keeps the empty
      image's zeros. The weight returned is the one of results[0], the same
      array object. */
  method GatherImageIterationResults(results: seq<Option<InvertResult>>, template: Image, patches: seq<seq<nat>>)
    returns (r: Result<InvertResult>)
    requires Tiling(patches, template.data.Length1)
    ensures r.Err? <==> GatherImageFault(results, template.data.Length0, patches).Some?
    ensures r.Err? ==> r.error == GatherImageFault(results, template.data.Length0, patches).value
    ensures r.Ok? ==> fresh(r.value.image) && fresh(r.value.image.data)
    ensures r.Ok? ==> r.value.sumwt == results[0].value.sumwt
    ensures r.Ok? ==> r.value.image.data.Length0 == template.data.Length0 && r.value.image.data.Length1 == template.data.Length1
    ensures r.Ok? ==> forall k :: 0 <= k < Written(results, patches) ==>
              PatchFits(results, template.data.Length0, patches, k) &&
              forall p, t :: 0 <= p < template.data.Length0 && 0 <= t < |patches[k]| ==>
                r.value.image.data[p, patches[k][t]] == results[k].value.image.data[p, t]
    ensures r.Ok? ==> forall p, g ::
              (0 <= p < template.data.Length0 && 0 <= g < template.data.Length1 &&
               Uncovered(patches[..Written(results, patches)], g)) ==>
                r.value.image.data[p, g] == 0.0
  {
    var result := EmptyImageLike(template);
    ghost var m := LeadingSome(results);
    ghost var planes := template.data.Length0;
    var i := 0;
    for k := 0 to |patches|
      invariant i == Min(k, m)
      invariant k > m ==> m < |results|
      invariant forall q :: 0 <= q < i ==> PatchFits(results, planes, patches, q)
      invariant forall q, p, t :: 0 <= q < i && PatchFits(results, planes, patches, q) && 0 <= p < planes && 0 <= t < |patches[q]| ==>
                  result.data[p, patches[q][t]] == results[q].value.image.data[p, t]
      invariant forall p, g :: 0 <= p < planes && 0 <= g < result.data.Length1 && Uncovered(patches[..i], g) ==>
                  result.data[p, g] == 0.0
    {
      if i == |results| {
        return Err(IndexOutOfRange);
      }
      if results[i].Some? {
        var src := results[i].value.image.data;
        if src.Length0 != result.data.Length0 || src.Length1 != |patches[k]| {
          assert !PatchFits(results, planes, patches, k);
          return Err(ShapeMismatch);
        }
        assert i == k;
        WritePatch(result.data, patches[k], src);
        forall g | Uncovered(patches[..i + 1], g) ensures Uncovered(patches[..i], g) && g !in patches[k] {
          assert forall q :: 0 <= q < i ==> patches[..i + 1][q] == patches[..i][q];
          assert patches[..i + 1][i] == patches[k];
        }
        i := i + 1;
      }
    }
    if |results| == 0 {
      return Err(IndexOutOfRange);
    }
    if results[0].None? {
      return Err(NoneResult);
    }
    return Ok(InvertResult(result, results[0].value.sumwt));
  }

  /** Once a None result has been met, every later patch is left at the empty
      image's zeros: its pixels are covered by no written patch. */
  lemma {:induction false} LaterPatchesUncovered(results: seq<Option<InvertResult>>, patches: seq<seq<nat>>, pixels: nat, k: nat, t: nat)
    requires Tiling(patches, pixels)
    requires Written(results, patches) <= k < |patches| && t < |patches[k]|
    ensures Uncovered(patches[..Written(results, patches)], patches[k][t])
  {
    var w := Written(results, patches);
    forall q | 0 <= q < w ensures patches[k][t] !in patches[..w][q] {
      assert patches[..w][q] == patches[q];
    }
  }

  // ---------------------------------------------------------------------------

  /** The number of non-None row blocks before block k: the result index that
      gather_vis reads for block k. */
  function Rank(blocks: seq<Option<seq<nat>>>, k: nat): (r: nat)
    requires k <= |blocks|
  {
    CountSome(blocks[..k])
  }

  /** Row blocks of a visibility with `rows` rows: in range, injective and
      pairwise disjoint. A None block is a null slice. */
  predicate Blocks(blocks: seq<Option<seq<nat>>>, rows: nat)
  {
    (forall k :: 0 <= k < |blocks| && blocks[k].Some? ==> InRange(blocks[k].value, rows) && Injective(blocks[k].value)) &&
    (forall k, k', t ::
       (0 <= k < |blocks| && 0 <= k' < |blocks| && k != k' && blocks[k].Some? && blocks[k'].Some? &&
        0 <= t < |blocks[k].value|) ==> blocks[k].value[t] !in blocks[k'].value)
  }

  /** The exception the write into block k raises, if any: the result index
      is past the end of the list, the result is None, or its rows do not fit
      the block. */
  function BlockFault(results: seq<Option<Visibility>>, blocks: seq<Option<seq<nat>>>, k: nat): (r: Option<Error>)
    requires k < |blocks|
  {
    if blocks[k].None? then None
    else
      var n := Rank(blocks, k);
      if n >= |results| then Some(IndexOutOfRange)
      else if results[n].None? then Some(NoneResult)
      else if results[n].value.vis.Length != |blocks[k].value| then Some(ShapeMismatch)
      else None
  }

  /** Row g lies in no block. */
  predicate OutsideBlocks(blocks: seq<Option<seq<nat>>>, g: nat)
  {
    forall k :: 0 <= k < |blocks| && blocks[k].Some? ==> g !in blocks[k].value
  }

  /** Writes the predicted slices back into vis, block by block; the counter
      advances once per non-None block. Every block's write is the intended
      `vis[rows] = results[i].vis` (see README on the chained indexing). The
      first faulting block decides the exception. */
  method GatherVis(results: seq<Option<Visibility>>, vis: Visibility, blocks: seq<Option<seq<nat>>>)
    returns (r: Result<Visibility>)
    requires Blocks(blocks, vis.vis.Length)
    requires forall n :: 0 <= n < |results| && results[n].Some? ==> results[n].value.vis != vis.vis
    modifies vis.vis
    ensures r.Err? <==> exists k :: 0 <= k < |blocks| && BlockFault(results, blocks, k).Some?
    ensures r.Err? ==> exists k :: 0 <= k < |blocks| && BlockFault(results, blocks, k) == Some(r.error) &&
                                   (forall k' :: 0 <= k' < k ==> BlockFault(results, blocks, k').None?)
    ensures r.Ok? ==> r.value == vis
    ensures r.Ok? ==> forall k, q ::
              0 <= k < |blocks| && blocks[k].Some? && BlockFault(results, blocks, k).None? && 0 <= q < |blocks[k].value| ==>
                vis.vis[blocks[k].value[q]] == results[Rank(blocks, k)].value.vis[q]
    ensures r.Ok? ==> forall g :: 0 <= g < vis.vis.Length && OutsideBlocks(blocks, g) ==> vis.vis[g] == old(vis.vis[g])
  {
    var i := 0;
    for k := 0 to |blocks|
      invariant i == Rank(blocks, k)
      invariant forall k' :: 0 <= k' < k ==> BlockFault(results, blocks, k').None?
      invariant forall k', q :: 0 <= k' < k && blocks[k'].Some? && BlockFault(results, blocks, k').None? && 0 <= q < |blocks[k'].value| ==>
                  vis.vis[blocks[k'].value[q]] == results[Rank(blocks, k')].value.vis[q]
      invariant forall g :: 0 <= g < vis.vis.Length && OutsideBlocks(blocks[..k], g) ==> vis.vis[g] == old(vis.vis[g])
    {
      RankStep(blocks, k);
      OutsideBlocksStep(blocks, k);
      if blocks[k].Some? {
        var rows := blocks[k].value;
        if i >= |results| {
          assert BlockFault(results, blocks, k) == Some(IndexOutOfRange);
          return Err(IndexOutOfRange);
        }
        if results[i].None? {
          assert BlockFault(results, blocks, k) == Some(NoneResult);
          return Err(NoneResult);
        }
        if results[i].value.vis.Length != |rows| {
          assert BlockFault(results, blocks, k) == Some(ShapeMismatch);
          return Err(ShapeMismatch);
        }
        WriteRows(vis.vis, rows, results[i].value.vis);
        i := i + 1;
      }
    }
    assert blocks[..|blocks|] == blocks;
    return Ok(vis);
  }

  /** The rank moves past block k exactly when block k is not None. */
  lemma RankStep(blocks: seq<Option<seq<nat>>>, k: nat)
    requires k < |blocks|
    ensures Rank(blocks, k + 1) == Rank(blocks, k) + (if blocks[k].Some? then 1 else 0)
  {
    assert blocks[..k + 1][..k] == blocks[..k];
  }

  /** A row outside blocks 0..k is outside blocks 0..k-1 and outside block k. */
  lemma OutsideBlocksStep(blocks: seq<Option<seq<nat>>>, k: nat)
    requires k < |blocks|
    ensures forall g :: OutsideBlocks(blocks[..k + 1], g) ==>
              OutsideBlocks(blocks[..k], g) && (blocks[k].Some? ==> g !in blocks[k].value)
  {
    forall g | OutsideBlocks(blocks[..k + 1], g)
      ensures OutsideBlocks(blocks[..k], g) && (blocks[k].Some? ==> g !in blocks[k].value)
    {
      assert forall k' :: 0 <= k' < k ==> blocks[..k + 1][k'] == blocks[..k][k'];
      assert blocks[..k + 1][k] == blocks[k];
    }
  }

  /** More non-None row blocks than results: gather_vis runs off the end of
      its result list. */
  lemma {:induction false} MoreBlocksThanResults(results: seq<Option<Visibility>>, blocks: seq<Option<seq<nat>>>)
    requires CountSome(blocks) > |results|
    ensures exists k :: 0 <= k < |blocks| && BlockFault(results, blocks, k).Some?
  {
    var n := |blocks|;
    assert blocks[..n] == blocks;
    var k := LastBelow(blocks, |results|);
    assert BlockFault(results, blocks, k) == Some(IndexOutOfRange);
  }

  /** The block at which the rank reaches c, for c below the number of
      non-None blocks. */
  lemma {:induction false} LastBelow(blocks: seq<Option<seq<nat>>>, c: nat) returns (k: nat)
    requires c < CountSome(blocks)
    ensures k < |blocks| && blocks[k].Some? && Rank(blocks, k) == c
  {
    var n := |blocks| - 1;
    assert blocks[..n + 1] == blocks;
    if blocks[n].Some? && CountSome(blocks[..n]) == c {
      k := n;
    } else {
      k := LastBelow(blocks[..n], c);
      assert blocks[..n][..k] == blocks[..k];
    }
  }
}
