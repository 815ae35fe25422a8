/** The bodies the list builders and the deconvolution graphs wrap in delayed
    calls: zero, subtract_vis, weight_vis and the two add_model helpers. Each
    works on a fresh copy or, for add_model, on the data of its first input. */
module NodeBodies {
  import opened Wrappers
  import opened DataModel
  import opened ArrayOps
  import opened Graphs

  /** zero: None stays None; otherwise a fresh copy of the same length whose
      'vis' values are all 0. The input is not changed. */
  method ZeroVis(v: Option<Visibility>) returns (r: Option<Visibility>)
    ensures r.Some? <==> v.Some?
    ensures r.Some? ==> fresh(r.value) && fresh(r.value.vis) && r.value.vis.Length == v.value.vis.Length
    ensures r.Some? ==> forall k :: 0 <= k < r.value.vis.Length ==> r.value.vis[k] == 0.0
  {
    if v.None? {
      return None;
    }
    var c := CopyVisibility(v.value);
    Fill(c.vis, 0.0);
    r := Some(c);
  }

  /** subtract_vis: None when either input is None; a shape mismatch when both
      are present with different lengths; otherwise a fresh copy of vis holding
      vis[k] - model_vis[k]. vis and model_vis may be the same object, and
      neither is changed. */
  method SubtractVis(vis: Option<Visibility>, modelVis: Option<Visibility>) returns (r: Result<Option<Visibility>>)
    ensures r.Err? <==> vis.Some? && modelVis.Some? && vis.value.vis.Length != modelVis.value.vis.Length
    ensures r.Err? ==> r.error == ShapeMismatch
    ensures r.Ok? ==> (r.value.Some? <==> vis.Some? && modelVis.Some?)
    ensures r.Ok? && r.value.Some? ==>
              fresh(r.value.value) && fresh(r.value.value.vis) && r.value.value.vis.Length == vis.value.vis.Length &&
              forall k :: 0 <= k < vis.value.vis.Length ==> r.value.value.vis[k] == vis.value.vis[k] - modelVis.value.vis[k]
  {
    if vis.None? || modelVis.None? {
      return Ok(None);
    }
    if vis.value.vis.Length != modelVis.value.vis.Length {
      return Err(ShapeMismatch);
    }
    var c := CopyVisibility(vis.value);
    SubtractInto(c.vis, modelVis.value.vis);
    r := Ok(Some(c));
  }

  /** weight_vis: the weighting kernel (weight_visibility, outside this model)
      is applied only when both the visibility and the model are present. */
  function WeightVis<V, M>(vis: Option<V>, model: Option<M>, weight: (V, M) -> V): (r: Option<V>)
    ensures r.Some? <==> vis.Some? && model.Some?
    ensures r.Some? ==> r.value == weight(vis.value, model.value)
  {
    if vis.None? then None
    else if model.None? then None
    else Some(weight(vis.value, model.value))
  }

  /** The value a closure variable of a deconvolution graph holds when the
      node body runs: an image, or the delayed node it was bound to. */
  datatype Arg = ImageArg(image: Image) | NodeArg(node: Node)

  /** add_model of the facet deconvolution graph: both arguments must be
      images of the same shape; the model is added into the data of sum_model
      in place, and sum_model itself is returned. sum_model and model may be
      the same image. */
  method AddModel(sumModel: Option<Image>, model: Option<Image>) returns (r: Result<Image>)
    modifies if sumModel.Some? && model.Some? then {sumModel.value.data} else {}
    ensures r.Err? <==> sumModel.None? || model.None? ||
                        sumModel.value.data.Length0 != model.value.data.Length0 ||
                        sumModel.value.data.Length1 != model.value.data.Length1
    ensures r.Err? ==> r.error == if sumModel.None? || model.None? then NotAnImage else ShapeMismatch
    ensures r.Ok? ==> r.value == sumModel.value
    ensures r.Ok? ==>
              forall p, j :: 0 <= p < r.value.data.Length0 && 0 <= j < r.value.data.Length1 ==>
                r.value.data[p, j] == old(sumModel.value.data[p, j]) + old(model.value.data[p, j])
  {
    if sumModel.None? || model.None? {
      return Err(NotAnImage);
    }
    var s := sumModel.value;
    var m := model.value;
    if s.data.Length0 != m.data.Length0 || s.data.Length1 != m.data.Length1 {
      return Err(ShapeMismatch);
    }
    AddRows(s.data, m.data);
    r := Ok(s);
  }

  /** add_model of the channel deconvolution graph as written: its first
      check is on the closure variable output rather than on sum_model. */
  method AddModelChannelAsWritten(output: Arg, sumModel: Option<Image>, model: Option<Image>) returns (r: Result<Image>)
    modifies if output.ImageArg? && sumModel.Some? && model.Some? then {sumModel.value.data} else {}
    ensures output.NodeArg? ==> r == Err(NotAnImage)
    ensures output.ImageArg? ==>
              (r.Err? <==> sumModel.None? || model.None? ||
                           sumModel.value.data.Length0 != model.value.data.Length0 ||
                           sumModel.value.data.Length1 != model.value.data.Length1)
    ensures r.Ok? ==> r.value == sumModel.value
    ensures r.Ok? ==>
              forall p, j :: 0 <= p < r.value.data.Length0 && 0 <= j < r.value.data.Length1 ==>
                r.value.data[p, j] == old(sumModel.value.data[p, j]) + old(model.value.data[p, j])
  {
    if output.NodeArg? {
      return Err(NotAnImage);
    }
    r := AddModel(sumModel, model);
  }

  /** In the channel graph, output is bound to the delayed
      create_empty_image_like node of the model graph, so the check fails
      whatever images the node receives. */
  method ChannelAddModelFails(sumModel: Option<Image>, model: Option<Image>, modelGraph: Node) returns (r: Result<Image>)
    ensures r == Err(NotAnImage)
  {
    var output := NodeArg(Node(EmptyImageLike, [modelGraph]));
    r := AddModelChannelAsWritten(output, sumModel, model);
  }
}
