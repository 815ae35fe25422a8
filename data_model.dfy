/** The data the graph nodes pass around: images, visibilities and invert
    results, as objects whose array data can be updated in place, with ghost
    functions that read them as values for the specifications. */
module DataModel {
  import opened Wrappers
  import opened Sums

  /** An image. data[p, j] is the pixel j of plane p, where a plane is one
      (channel, polarisation) pair and a pixel one (y, x) position, both axes
      flattened. The coordinate system is not modelled. */
  class Image {
    const data: array2<real>

    constructor (data: array2<real>)
      ensures this.data == data
    {
      this.data := data;
    }
  }

  /** A visibility set, reduced to its 'vis' column: one value per row. */
  class Visibility {
    const vis: array<real>

    constructor (vis: array<real>)
      ensures this.vis == vis
    {
      this.vis := vis;
    }
  }

  /** An (image, sumwt) pair as returned by an invert; sumwt holds one weight
      per plane (numpy shape [nchan, npol], flattened). */
  datatype InvertResult = InvertResult(image: Image, sumwt: array<real>)

  function Planes(r: InvertResult): (n: nat) { r.image.data.Length0 }
  function Pixels(r: InvertResult): (n: nat) { r.image.data.Length1 }

  /** A None entry, or an entry whose image is planes x pixels with one weight
      per plane: one numpy can combine with an accumulator of that shape. */
  predicate Conforms(e: Option<InvertResult>, planes: nat, pixels: nat)
  {
    e.Some? ==> Planes(e.value) == planes && Pixels(e.value) == pixels && e.value.sumwt.Length == planes
  }

  predicate HasResult(list: seq<Option<InvertResult>>)
  {
    FirstSome(list) < |list|
  }

  /** Every entry conforms to the shape of the first non-None entry. */
  predicate ShapesAgree(list: seq<Option<InvertResult>>)
    requires HasResult(list)
  {
    var f := list[FirstSome(list)].value;
    forall k :: 0 <= k < |list| ==> Conforms(list[k], Planes(f), Pixels(f))
  }

  /** The shapes agree when the first result is well formed and every later
      entry has its shape (the entries before it are None). */
  lemma ShapesAgreeFrom(list: seq<Option<InvertResult>>)
    requires HasResult(list)
    ensures var f := FirstSome(list); var e := list[f].value;
            ShapesAgree(list) <==>
              Conforms(list[f], Planes(e), Pixels(e)) &&
              forall k :: f < k < |list| ==> Conforms(list[k], Planes(e), Pixels(e))
  {
  }

  /** The weight arrays of distinct non-None entries are distinct objects. */
  predicate DistinctWeights(list: seq<Option<InvertResult>>)
  {
    forall i, k :: 0 <= i < |list| && 0 <= k < |list| && i != k && list[i].Some? && list[k].Some? ==>
      list[i].value.sumwt != list[k].value.sumwt
  }

  function WeightArrays(list: seq<Option<InvertResult>>): (r: set<array<real>>)
  {
    set k | 0 <= k < |list| && list[k].Some? :: list[k].value.sumwt
  }

  // ---------------------------------------------------------------------------
  // Reading objects as values

  ghost function ImageValue(a: array2<real>): (v: seq<seq<real>>)
    reads a
    ensures |v| == a.Length0
    ensures forall p :: 0 <= p < a.Length0 ==> |v[p]| == a.Length1
    ensures forall p, j :: 0 <= p < a.Length0 && 0 <= j < a.Length1 ==> v[p][j] == a[p, j]
  {
    seq(a.Length0, p requires 0 <= p < a.Length0 reads a =>
      seq(a.Length1, j requires 0 <= j < a.Length1 reads a => a[p, j]))
  }

  function Parts(e: Option<InvertResult>): (r: set<object>)
  {
    if e.None? then {} else {e.value.image.data, e.value.sumwt}
  }

  function Footprint(list: seq<Option<InvertResult>>): (r: set<object>)
  {
    if list == [] then {} else Footprint(list[..|list| - 1]) + Parts(list[|list| - 1])
  }

  ghost function PartialOf(e: Option<InvertResult>): (r: Option<Partial>)
    reads Parts(e)
  {
    if e.None? then None else Some(Partial(ImageValue(e.value.image.data), e.value.sumwt[..]))
  }

  /** The values held by a list of invert results. */
  ghost function Snapshot(list: seq<Option<InvertResult>>): (s: seq<Option<Partial>>)
    reads Footprint(list)
    ensures |s| == |list|
    ensures forall i :: 0 <= i < |list| ==> s[i] == PartialOf(list[i])
  {
    if list == [] then [] else Snapshot(list[..|list| - 1]) + [PartialOf(list[|list| - 1])]
  }

  ghost function VisValue(v: Option<Visibility>): (r: Option<seq<real>>)
    reads if v.Some? then {v.value.vis} else {}
  {
    if v.None? then None else Some(v.value.vis[..])
  }

  function VisArrays(vs: seq<Option<Visibility>>): (r: set<array<real>>)
  {
    set k | 0 <= k < |vs| && vs[k].Some? :: vs[k].value.vis
  }

  /** The values held by a list of visibilities. */
  ghost function VisSnapshot(vs: seq<Option<Visibility>>): (s: seq<Option<seq<real>>>)
    reads VisArrays(vs)
    ensures |s| == |vs|
    ensures forall i :: 0 <= i < |vs| ==> s[i] == VisValue(vs[i])
  {
    seq(|vs|, i requires 0 <= i < |vs| reads VisArrays(vs) => VisValue(vs[i]))
  }

  // ---------------------------------------------------------------------------
  // Constructors of fresh data (copy_image, create_empty_image_like and
  // copy_visibility are library functions; only their effect on the data is
  // modelled)

  /** A deep copy of an image. */
  method CopyImage(im: Image) returns (c: Image)
    ensures fresh(c) && fresh(c.data)
    ensures c.data.Length0 == im.data.Length0 && c.data.Length1 == im.data.Length1
    ensures forall p, j :: 0 <= p < c.data.Length0 && 0 <= j < c.data.Length1 ==> c.data[p, j] == im.data[p, j]
  {
    var d := new real[im.data.Length0, im.data.Length1]((p, j) reads im.data =>
      if 0 <= p < im.data.Length0 && 0 <= j < im.data.Length1 then im.data[p, j] else 0.0);
    c := new Image(d);
  }

  /** An image of the template's shape with every pixel 0. */
  method EmptyImageLike(template: Image) returns (c: Image)
    ensures fresh(c) && fresh(c.data)
    ensures c.data.Length0 == template.data.Length0 && c.data.Length1 == template.data.Length1
    ensures forall p, j :: 0 <= p < c.data.Length0 && 0 <= j < c.data.Length1 ==> c.data[p, j] == 0.0
  {
    var d := new real[template.data.Length0, template.data.Length1]((p, j) => 0.0);
    c := new Image(d);
  }

  /** A copy of a one-dimensional array (weights or a 'vis' column). */
  method CopyArray(a: array<real>) returns (c: array<real>)
    ensures fresh(c) && c.Length == a.Length && c[..] == a[..]
  {
    c := new real[a.Length](k reads a => if 0 <= k < a.Length then a[k] else 0.0);
  }

  /** A deep copy of a visibility set. */
  method CopyVisibility(v: Visibility) returns (c: Visibility)
    ensures fresh(c) && fresh(c.vis) && c.vis[..] == v.vis[..]
  {
    var a := CopyArray(v.vis);
    c := new Visibility(a);
  }
}
