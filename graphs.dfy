/** The graph builders: functions that wrap node bodies in delayed calls and
    return lists of graph nodes without running anything. A node is an
    operation tag and the nodes it takes as arguments; structurally equal
    nodes stand for the same delayed call. The properties proved are the shape
    of the lists (one output per input visibility graph), the inputs each
    output depends on, and the number of invert and predict calls per output. */
module Graphs {
  import opened Wrappers

  /** What a node computes. Parameters the builders close over are part of
      the tag. */
  datatype Op =
    | Input(id: nat)                     // a node handed in by the caller (a visibility or model graph)
    | Item(index: nat)                   // output `index` of a node delayed with several outputs
    | ListOf                             // a Python list of nodes passed as one argument
    | ScatterVis(visSlices: nat)
    | ScatterImage(facets: nat)
    | ZeroVis
    | SubtractVis
    | WeightVis(weighting: string)
    | InvertIgnoreNone(context: string, dopsf: bool, normalize: bool)
    | PredictIgnoreNone(context: string)
    | SumInvert
    | GatherImage(facets: nat)
    | SumPredict
    | GatherVis(visSlices: nat)
    | EmptyImageLike

  datatype Node = Node(op: Op, args: seq<Node>)

  /** The partitioning parameters and the context. innerVis is the imaging
      context's `inner == 'vis'`; the context table itself is not part of this
      model. */
  datatype Imaging = Imaging(context: string, facets: nat, visSlices: nat, innerVis: bool)

  // ---------------------------------------------------------------------------
  // Reading graphs

  /** The number of nodes of the tree whose operation satisfies k. */
  function Occurrences(n: Node, k: Op -> bool): (r: nat)
  {
    (if k(n.op) then 1 else 0) + OccurrencesIn(n.args, k)
  }

  function OccurrencesIn(ns: seq<Node>, k: Op -> bool): (r: nat)
  {
    if ns == [] then 0 else Occurrences(ns[0], k) + OccurrencesIn(ns[1..], k)
  }

  /** The caller's nodes a node depends on. */
  function Anchors(n: Node): (r: set<nat>)
  {
    if n.op.Input? then {n.op.id} else AnchorsIn(n.args)
  }

  function AnchorsIn(ns: seq<Node>): (r: set<nat>)
  {
    if ns == [] then {} else Anchors(ns[0]) + AnchorsIn(ns[1..])
  }

  predicate IsInvertCall(o: Op) { o.InvertIgnoreNone? }
  predicate IsPredictCall(o: Op) { o.PredictIgnoreNone? }

  /** k marks kernel calls only: no structural node is counted. */
  ghost predicate KernelsOnly(k: Op -> bool)
  {
    forall o :: k(o) ==> o.InvertIgnoreNone? || o.PredictIgnoreNone?
  }

  // ---------------------------------------------------------------------------
  // Builders

  /** The items of a node delayed with nout = n. */
  function Outputs(src: Node, n: nat): (r: seq<Node>)
    ensures |r| == n
    ensures forall i :: 0 <= i < n ==> r[i].op == Item(i) && r[i].args == [src]
  {
    seq(n, i requires 0 <= i < n => Node(Item(i), [src]))
  }

  function CreateZeroVisGraphList(vs: seq<Node>): (r: seq<Node>)
  {
    seq(|vs|, i requires 0 <= i < |vs| => Node(ZeroVis, [vs[i]]))
  }

  /** `model_vis_graph_list[i]` for every i below len(vis_graph_list): a
      shorter model list is an index error. */
  function CreateSubtractVisGraphList(vs: seq<Node>, ms: seq<Node>): (r: Result<seq<Node>>)
  {
    if |ms| < |vs| then Err(IndexOutOfRange)
    else Ok(seq(|vs|, i requires 0 <= i < |vs| => Node(SubtractVis, [vs[i], ms[i]])))
  }

  function CreateWeightVisGraphList(vs: seq<Node>, model: Node, weighting: string): (r: seq<Node>)
  {
    seq(|vs|, i requires 0 <= i < |vs| => Node(WeightVis(weighting), [vs[i], model]))
  }

  /** The facet items scattered from the model, shared by all visibilities. */
  function ModelGraphs(model: Node, facets: nat): (r: seq<Node>)
  {
    Outputs(Node(ScatterImage(facets), [model]), facets * facets)
  }

  function SubVisGraphs(v: Node, visSlices: nat): (r: seq<Node>)
  {
    Outputs(Node(ScatterVis(visSlices), [v]), visSlices)
  }

  function InvertCall(s: Node, m: Node, c: Imaging, dopsf: bool, normalize: bool): (r: Node)
  {
    Node(InvertIgnoreNone(c.context, dopsf, normalize), [s, m])
  }

  /** One invert per slice, for one facet model. */
  function SliceCalls(sub: seq<Node>, m: Node, c: Imaging, dopsf: bool, normalize: bool): (r: seq<Node>)
  {
    seq(|sub|, s requires 0 <= s < |sub| => InvertCall(sub[s], m, c, dopsf, normalize))
  }

  /** One invert per facet model, for one slice. */
  function FacetCalls(s: Node, models: seq<Node>, c: Imaging, dopsf: bool, normalize: bool): (r: seq<Node>)
  {
    seq(|models|, m requires 0 <= m < |models| => InvertCall(s, models[m], c, dopsf, normalize))
  }

  /** The inner-'vis' loop body: for one facet, the inverts of all slices summed. */
  function FacetSum(sub: seq<Node>, m: Node, c: Imaging, dopsf: bool, normalize: bool): (r: Node)
  {
    Node(SumInvert, [Node(ListOf, SliceCalls(sub, m, c, dopsf, normalize))])
  }

  function FacetSums(sub: seq<Node>, models: seq<Node>, c: Imaging, dopsf: bool, normalize: bool): (r: seq<Node>)
  {
    seq(|models|, m requires 0 <= m < |models| => FacetSum(sub, models[m], c, dopsf, normalize))
  }

  /** The inner-'image' loop body: for one slice, the inverts of all facets gathered. */
  function SliceGather(s: Node, models: seq<Node>, template: Node, c: Imaging, dopsf: bool, normalize: bool): (r: Node)
  {
    Node(GatherImage(c.facets), [Node(ListOf, FacetCalls(s, models, c, dopsf, normalize)), template])
  }

  function SliceGathers(sub: seq<Node>, models: seq<Node>, template: Node, c: Imaging, dopsf: bool, normalize: bool): (r: seq<Node>)
  {
    seq(|sub|, s requires 0 <= s < |sub| => SliceGather(sub[s], models, template, c, dopsf, normalize))
  }

  /** The graph create_invert_graph builds for one visibility graph. */
  function InvertGraphFor(v: Node, template: Node, c: Imaging, dopsf: bool, normalize: bool): (r: Node)
  {
    var models := ModelGraphs(template, c.facets);
    var sub := SubVisGraphs(v, c.visSlices);
    if c.innerVis then
      Node(GatherImage(c.facets), [Node(ListOf, FacetSums(sub, models, c, dopsf, normalize)), template])
    else
      Node(SumInvert, [Node(ListOf, SliceGathers(sub, models, template, c, dopsf, normalize))])
  }

  function CreateInvertGraph(vs: seq<Node>, template: Node, c: Imaging, dopsf: bool, normalize: bool): (r: seq<Node>)
  {
    seq(|vs|, i requires 0 <= i < |vs| => InvertGraphFor(vs[i], template, c, dopsf, normalize))
  }

  function PredictCall(s: Node, m: Node, c: Imaging): (r: Node)
  {
    Node(PredictIgnoreNone(c.context), [s, m])
  }

  function PredictCalls(sub: seq<Node>, m: Node, c: Imaging): (r: seq<Node>)
  {
    seq(|sub|, s requires 0 <= s < |sub| => PredictCall(sub[s], m, c))
  }

  /** For one facet, one predict per slice summed. */
  function FacetPredict(sub: seq<Node>, m: Node, c: Imaging): (r: Node)
  {
    Node(SumPredict, [Node(ListOf, PredictCalls(sub, m, c))])
  }

  function FacetPredicts(sub: seq<Node>, models: seq<Node>, c: Imaging): (r: seq<Node>)
  {
    seq(|models|, m requires 0 <= m < |models| => FacetPredict(sub, models[m], c))
  }

  /** The graph create_predict_graph builds for one visibility graph: the
      facet sums gathered back into the visibility. */
  function PredictGraphFor(v: Node, model: Node, c: Imaging): (r: Node)
  {
    var models := ModelGraphs(model, c.facets);
    var sub := SubVisGraphs(v, c.visSlices);
    Node(GatherVis(c.visSlices), [Node(ListOf, FacetPredicts(sub, models, c)), v])
  }

  function CreatePredictGraph(vs: seq<Node>, model: Node, c: Imaging): (r: seq<Node>)
  {
    seq(|vs|, i requires 0 <= i < |vs| => PredictGraphFor(vs[i], model, c))
  }

  /** Zero copies of the visibilities, predicted from the model, subtracted
      from the visibilities and inverted without the PSF, normalised. */
  function CreateResidualGraph(vs: seq<Node>, model: Node, c: Imaging): (r: Result<seq<Node>>)
  {
    var modelVis := CreatePredictGraph(CreateZeroVisGraphList(vs), model, c);
    match CreateSubtractVisGraphList(vs, modelVis)
    case Err(e) => Err(e)
    case Ok(residual) => Ok(CreateInvertGraph(residual, model, c, false, true))
  }

  // ---------------------------------------------------------------------------
  // Counting and dependency facts about lists of nodes

  lemma {:induction false} OccurrencesInUniform(ns: seq<Node>, k: Op -> bool, n: nat)
    requires forall i :: 0 <= i < |ns| ==> Occurrences(ns[i], k) == n
    ensures OccurrencesIn(ns, k) == |ns| * n
  {
    if ns != [] {
      OccurrencesInUniform(ns[1..], k, n);
      assert |ns| * n == n + (|ns| - 1) * n;
    }
  }

  /** A non-empty list whose entries all depend on a depends on a; an empty
      one depends on nothing. */
  lemma {:induction false} AnchorsInUniform(ns: seq<Node>, a: set<nat>)
    requires forall i :: 0 <= i < |ns| ==> Anchors(ns[i]) == a
    ensures AnchorsIn(ns) == if ns == [] then {} else a
  {
    if ns != [] {
      AnchorsInUniform(ns[1..], a);
    }
  }

  lemma MulAssoc(a: nat, b: nat, c: nat)
    ensures a * (b * c) == a * b * c
  {
  }

  /** A list node counts and depends on what its entries do. */
  lemma ListOfFacts(ns: seq<Node>, k: Op -> bool)
    requires KernelsOnly(k)
    ensures Occurrences(Node(ListOf, ns), k) == OccurrencesIn(ns, k)
    ensures Anchors(Node(ListOf, ns)) == AnchorsIn(ns)
  {
    assert !k(ListOf);
  }

  lemma {:induction false} WrapOne(op: Op, x: Node, k: Op -> bool)
    requires !op.Input?
    ensures Occurrences(Node(op, [x]), k) == (if k(op) then 1 else 0) + Occurrences(x, k)
    ensures Anchors(Node(op, [x])) == Anchors(x)
  {
    assert [x][1..] == [];
    assert OccurrencesIn([x], k) == Occurrences(x, k) + OccurrencesIn([], k);
    assert AnchorsIn([x]) == Anchors(x) + AnchorsIn([]);
  }

  lemma {:induction false} WrapTwo(op: Op, x: Node, y: Node, k: Op -> bool)
    requires !op.Input?
    ensures Occurrences(Node(op, [x, y]), k) == (if k(op) then 1 else 0) + Occurrences(x, k) + Occurrences(y, k)
    ensures Anchors(Node(op, [x, y])) == Anchors(x) + Anchors(y)
  {
    assert [x, y][1..] == [y];
    assert [y][1..] == [];
    assert OccurrencesIn([y], k) == Occurrences(y, k) + OccurrencesIn([], k);
    assert OccurrencesIn([x, y], k) == Occurrences(x, k) + OccurrencesIn([y], k);
    assert AnchorsIn([y]) == Anchors(y) + AnchorsIn([]);
    assert AnchorsIn([x, y]) == Anchors(x) + AnchorsIn([y]);
  }

  /** An item of a scattered node counts and depends on what the scattered
      node's input does. */
  lemma ScatterItem(op: Op, src: Node, n: nat, i: nat, k: Op -> bool)
    requires KernelsOnly(k) && (op.ScatterVis? || op.ScatterImage?) && i < n
    ensures Occurrences(Outputs(Node(op, [src]), n)[i], k) == Occurrences(src, k)
    ensures Anchors(Outputs(Node(op, [src]), n)[i]) == Anchors(src)
  {
    assert !k(op) && !k(Item(i));
    WrapOne(op, src, k);
    WrapOne(Item(i), Node(op, [src]), k);
  }

  // ---------------------------------------------------------------------------
  // The list builders preserve the list and its order

  /** One zero node per input, depending on that input only. */
  lemma ZeroVisListShape(vs: seq<Node>)
    ensures |CreateZeroVisGraphList(vs)| == |vs|
    ensures forall i :: 0 <= i < |vs| ==> Anchors(CreateZeroVisGraphList(vs)[i]) == Anchors(vs[i])
  {
    forall i | 0 <= i < |vs| ensures Anchors(CreateZeroVisGraphList(vs)[i]) == Anchors(vs[i]) {
      WrapOne(ZeroVis, vs[i], IsInvertCall);
    }
  }

  /** The subtract list fails exactly when the model list is shorter; otherwise
      output i depends on visibility i and model visibility i only. */
  lemma SubtractVisListShape(vs: seq<Node>, ms: seq<Node>)
    ensures CreateSubtractVisGraphList(vs, ms).Err? <==> |ms| < |vs|
    ensures CreateSubtractVisGraphList(vs, ms).Ok? ==>
              |CreateSubtractVisGraphList(vs, ms).value| == |vs| &&
              forall i :: 0 <= i < |vs| ==> Anchors(CreateSubtractVisGraphList(vs, ms).value[i]) == Anchors(vs[i]) + Anchors(ms[i])
  {
    if |ms| >= |vs| {
      forall i | 0 <= i < |vs| ensures Anchors(CreateSubtractVisGraphList(vs, ms).value[i]) == Anchors(vs[i]) + Anchors(ms[i]) {
        WrapTwo(SubtractVis, vs[i], ms[i], IsInvertCall);
      }
    }
  }

  /** One weighting node per input, depending on that input and the model. */
  lemma WeightVisListShape(vs: seq<Node>, model: Node, weighting: string)
    ensures |CreateWeightVisGraphList(vs, model, weighting)| == |vs|
    ensures forall i :: 0 <= i < |vs| ==> Anchors(CreateWeightVisGraphList(vs, model, weighting)[i]) == Anchors(vs[i]) + Anchors(model)
  {
    forall i | 0 <= i < |vs| ensures Anchors(CreateWeightVisGraphList(vs, model, weighting)[i]) == Anchors(vs[i]) + Anchors(model) {
      WrapTwo(WeightVis(weighting), vs[i], model, IsInvertCall);
    }
  }

  // ---------------------------------------------------------------------------
  // Invert graph

  /** One invert call: the call itself plus the calls in its inputs, and it
      depends on the visibility and the template. */
  lemma InvertCallFacts(v: Node, template: Node, c: Imaging, dopsf: bool, normalize: bool, k: Op -> bool, s: nat, m: nat)
    requires KernelsOnly(k) && s < c.visSlices && m < c.facets * c.facets
    ensures Occurrences(InvertCall(SubVisGraphs(v, c.visSlices)[s], ModelGraphs(template, c.facets)[m], c, dopsf, normalize), k)
            == (if k(InvertIgnoreNone(c.context, dopsf, normalize)) then 1 else 0) + Occurrences(v, k) + Occurrences(template, k)
    ensures Anchors(InvertCall(SubVisGraphs(v, c.visSlices)[s], ModelGraphs(template, c.facets)[m], c, dopsf, normalize))
            == Anchors(v) + Anchors(template)
  {
    ScatterItem(ScatterVis(c.visSlices), v, c.visSlices, s, k);
    ScatterItem(ScatterImage(c.facets), template, c.facets * c.facets, m, k);
    WrapTwo(InvertIgnoreNone(c.context, dopsf, normalize), SubVisGraphs(v, c.visSlices)[s], ModelGraphs(template, c.facets)[m], k);
  }

  /** For one facet, vis_slices invert calls are summed. */
  lemma {:induction false} FacetSumFacts(v: Node, template: Node, c: Imaging, dopsf: bool, normalize: bool, k: Op -> bool, m: nat)
    requires KernelsOnly(k) && Occurrences(v, k) == 0 && Occurrences(template, k) == 0
    requires m < c.facets * c.facets
    ensures Occurrences(FacetSum(SubVisGraphs(v, c.visSlices), ModelGraphs(template, c.facets)[m], c, dopsf, normalize), k)
            == c.visSlices * (if k(InvertIgnoreNone(c.context, dopsf, normalize)) then 1 else 0)
  {
    var u := if k(InvertIgnoreNone(c.context, dopsf, normalize)) then 1 else 0;
    var calls := SliceCalls(SubVisGraphs(v, c.visSlices), ModelGraphs(template, c.facets)[m], c, dopsf, normalize);
    forall s | 0 <= s < |calls| ensures Occurrences(calls[s], k) == u {
      InvertCallFacts(v, template, c, dopsf, normalize, k, s, m);
    }
    OccurrencesInUniform(calls, k, u);
    ListOfFacts(calls, k);
    assert !k(SumInvert);
    WrapOne(SumInvert, Node(ListOf, calls), k);
  }

  lemma FacetSumAnchors(v: Node, template: Node, c: Imaging, dopsf: bool, normalize: bool, m: nat)
    requires m < c.facets * c.facets
    ensures Anchors(FacetSum(SubVisGraphs(v, c.visSlices), ModelGraphs(template, c.facets)[m], c, dopsf, normalize))
            == if c.visSlices >= 1 then Anchors(v) + Anchors(template) else {}
  {
    var calls := SliceCalls(SubVisGraphs(v, c.visSlices), ModelGraphs(template, c.facets)[m], c, dopsf, normalize);
    forall s | 0 <= s < |calls| ensures Anchors(calls[s]) == Anchors(v) + Anchors(template) {
      InvertCallFacts(v, template, c, dopsf, normalize, IsInvertCall, s, m);
    }
    AnchorsInUniform(calls, Anchors(v) + Anchors(template));
    ListOfFacts(calls, IsInvertCall);
    WrapOne(SumInvert, Node(ListOf, calls), IsInvertCall);
  }

  /** For one slice, facets² invert calls are gathered. */
  lemma {:induction false} SliceGatherFacts(v: Node, template: Node, c: Imaging, dopsf: bool, normalize: bool, k: Op -> bool, s: nat)
    requires KernelsOnly(k) && Occurrences(v, k) == 0 && Occurrences(template, k) == 0
    requires s < c.visSlices
    ensures Occurrences(SliceGather(SubVisGraphs(v, c.visSlices)[s], ModelGraphs(template, c.facets), template, c, dopsf, normalize), k)
            == c.facets * c.facets * (if k(InvertIgnoreNone(c.context, dopsf, normalize)) then 1 else 0)
  {
    var u := if k(InvertIgnoreNone(c.context, dopsf, normalize)) then 1 else 0;
    var calls := FacetCalls(SubVisGraphs(v, c.visSlices)[s], ModelGraphs(template, c.facets), c, dopsf, normalize);
    forall m | 0 <= m < |calls| ensures Occurrences(calls[m], k) == u {
      InvertCallFacts(v, template, c, dopsf, normalize, k, s, m);
    }
    OccurrencesInUniform(calls, k, u);
    ListOfFacts(calls, k);
    assert !k(GatherImage(c.facets));
    WrapTwo(GatherImage(c.facets), Node(ListOf, calls), template, k);
  }

  lemma SliceGatherAnchors(v: Node, template: Node, c: Imaging, dopsf: bool, normalize: bool, s: nat)
    requires s < c.visSlices
    ensures Anchors(SliceGather(SubVisGraphs(v, c.visSlices)[s], ModelGraphs(template, c.facets), template, c, dopsf, normalize))
            == (if c.facets >= 1 then Anchors(v) else {}) + Anchors(template)
  {
    var calls := FacetCalls(SubVisGraphs(v, c.visSlices)[s], ModelGraphs(template, c.facets), c, dopsf, normalize);
    forall m | 0 <= m < |calls| ensures Anchors(calls[m]) == Anchors(v) + Anchors(template) {
      InvertCallFacts(v, template, c, dopsf, normalize, IsInvertCall, s, m);
    }
    AnchorsInUniform(calls, Anchors(v) + Anchors(template));
    assert c.facets >= 1 ==> calls != [] by {
      if c.facets >= 1 {
        assert c.facets * c.facets >= 1;
      }
    }
    ListOfFacts(calls, IsInvertCall);
    WrapTwo(GatherImage(c.facets), Node(ListOf, calls), template, IsInvertCall);
  }

  /** create_invert_graph makes facets² × vis_slices invert calls for each
      visibility graph, whichever loop is inner, when its inputs hold none; a
      counter k that marks other kernels finds none. */
  lemma {:induction false} InvertGraphCalls(v: Node, template: Node, c: Imaging, dopsf: bool, normalize: bool, k: Op -> bool)
    requires KernelsOnly(k) && Occurrences(v, k) == 0 && Occurrences(template, k) == 0
    ensures Occurrences(InvertGraphFor(v, template, c, dopsf, normalize), k)
            == c.facets * c.facets * c.visSlices * (if k(InvertIgnoreNone(c.context, dopsf, normalize)) then 1 else 0)
  {
    var u := if k(InvertIgnoreNone(c.context, dopsf, normalize)) then 1 else 0;
    var models := ModelGraphs(template, c.facets);
    var sub := SubVisGraphs(v, c.visSlices);
    var F2 := c.facets * c.facets;
    var S := c.visSlices;
    if c.innerVis {
      var sums := FacetSums(sub, models, c, dopsf, normalize);
      forall m | 0 <= m < |sums| ensures Occurrences(sums[m], k) == S * u {
        FacetSumFacts(v, template, c, dopsf, normalize, k, m);
      }
      OccurrencesInUniform(sums, k, S * u);
      ListOfFacts(sums, k);
      assert !k(GatherImage(c.facets));
      WrapTwo(GatherImage(c.facets), Node(ListOf, sums), template, k);
      MulAssoc(F2, S, u);
    } else {
      var gathers := SliceGathers(sub, models, template, c, dopsf, normalize);
      forall s | 0 <= s < |gathers| ensures Occurrences(gathers[s], k) == F2 * u {
        SliceGatherFacts(v, template, c, dopsf, normalize, k, s);
      }
      OccurrencesInUniform(gathers, k, F2 * u);
      ListOfFacts(gathers, k);
      assert !k(SumInvert);
      WrapOne(SumInvert, Node(ListOf, gathers), k);
      MulAssoc(S, F2, u);
      assert S * F2 == F2 * S;
    }
  }

  /** Output i of create_invert_graph depends on visibility i and the template
      model only, and on both when there is at least one facet and one slice. */
  lemma {:induction false} InvertGraphAnchors(v: Node, template: Node, c: Imaging, dopsf: bool, normalize: bool)
    ensures Anchors(InvertGraphFor(v, template, c, dopsf, normalize)) <= Anchors(v) + Anchors(template)
    ensures c.facets >= 1 && c.visSlices >= 1 ==>
              Anchors(InvertGraphFor(v, template, c, dopsf, normalize)) == Anchors(v) + Anchors(template)
  {
    var a := Anchors(v) + Anchors(template);
    var models := ModelGraphs(template, c.facets);
    var sub := SubVisGraphs(v, c.visSlices);
    assert c.facets >= 1 ==> |models| >= 1 by {
      if c.facets >= 1 {
        assert c.facets * c.facets >= 1;
      }
    }
    if c.innerVis {
      var sums := FacetSums(sub, models, c, dopsf, normalize);
      var b := if c.visSlices >= 1 then a else {};
      forall m | 0 <= m < |sums| ensures Anchors(sums[m]) == b {
        FacetSumAnchors(v, template, c, dopsf, normalize, m);
      }
      AnchorsInUniform(sums, b);
      ListOfFacts(sums, IsInvertCall);
      WrapTwo(GatherImage(c.facets), Node(ListOf, sums), template, IsInvertCall);
    } else {
      var gathers := SliceGathers(sub, models, template, c, dopsf, normalize);
      var b := (if c.facets >= 1 then Anchors(v) else {}) + Anchors(template);
      forall s | 0 <= s < |gathers| ensures Anchors(gathers[s]) == b {
        SliceGatherAnchors(v, template, c, dopsf, normalize, s);
      }
      AnchorsInUniform(gathers, b);
      ListOfFacts(gathers, IsInvertCall);
      WrapOne(SumInvert, Node(ListOf, gathers), IsInvertCall);
    }
  }

  /** create_invert_graph returns one graph per visibility graph, in order,
      each with facets² × vis_slices invert calls and depending on its own
      visibility graph and the template only. */
  lemma InvertGraphShape(vs: seq<Node>, template: Node, c: Imaging, dopsf: bool, normalize: bool)
    requires Occurrences(template, IsInvertCall) == 0
    requires forall i :: 0 <= i < |vs| ==> Occurrences(vs[i], IsInvertCall) == 0
    ensures |CreateInvertGraph(vs, template, c, dopsf, normalize)| == |vs|
    ensures forall i :: 0 <= i < |vs| ==>
              Occurrences(CreateInvertGraph(vs, template, c, dopsf, normalize)[i], IsInvertCall) == c.facets * c.facets * c.visSlices
    ensures forall i :: 0 <= i < |vs| ==>
              Anchors(CreateInvertGraph(vs, template, c, dopsf, normalize)[i]) <= Anchors(vs[i]) + Anchors(template)
  {
    forall i | 0 <= i < |vs|
      ensures Occurrences(CreateInvertGraph(vs, template, c, dopsf, normalize)[i], IsInvertCall) == c.facets * c.facets * c.visSlices
      ensures Anchors(CreateInvertGraph(vs, template, c, dopsf, normalize)[i]) <= Anchors(vs[i]) + Anchors(template)
    {
      InvertGraphCalls(vs[i], template, c, dopsf, normalize, IsInvertCall);
      InvertGraphAnchors(vs[i], template, c, dopsf, normalize);
    }
  }

  // ---------------------------------------------------------------------------
  // Predict graph

  lemma PredictCallFacts(v: Node, model: Node, c: Imaging, k: Op -> bool, s: nat, m: nat)
    requires KernelsOnly(k) && s < c.visSlices && m < c.facets * c.facets
    ensures Occurrences(PredictCall(SubVisGraphs(v, c.visSlices)[s], ModelGraphs(model, c.facets)[m], c), k)
            == (if k(PredictIgnoreNone(c.context)) then 1 else 0) + Occurrences(v, k) + Occurrences(model, k)
    ensures Anchors(PredictCall(SubVisGraphs(v, c.visSlices)[s], ModelGraphs(model, c.facets)[m], c))
            == Anchors(v) + Anchors(model)
  {
    ScatterItem(ScatterVis(c.visSlices), v, c.visSlices, s, k);
    ScatterItem(ScatterImage(c.facets), model, c.facets * c.facets, m, k);
    WrapTwo(PredictIgnoreNone(c.context), SubVisGraphs(v, c.visSlices)[s], ModelGraphs(model, c.facets)[m], k);
  }

  /** For one facet, vis_slices predict calls are summed. */
  lemma {:induction false} FacetPredictCalls(v: Node, model: Node, c: Imaging, k: Op -> bool, m: nat)
    requires KernelsOnly(k) && Occurrences(v, k) == 0 && Occurrences(model, k) == 0
    requires m < c.facets * c.facets
    ensures Occurrences(FacetPredict(SubVisGraphs(v, c.visSlices), ModelGraphs(model, c.facets)[m], c), k)
            == c.visSlices * (if k(PredictIgnoreNone(c.context)) then 1 else 0)
  {
    var u := if k(PredictIgnoreNone(c.context)) then 1 else 0;
    var calls := PredictCalls(SubVisGraphs(v, c.visSlices), ModelGraphs(model, c.facets)[m], c);
    forall s | 0 <= s < |calls| ensures Occurrences(calls[s], k) == u {
      PredictCallFacts(v, model, c, k, s, m);
    }
    OccurrencesInUniform(calls, k, u);
    ListOfFacts(calls, k);
    assert !k(SumPredict);
    WrapOne(SumPredict, Node(ListOf, calls), k);
  }

  lemma FacetPredictAnchors(v: Node, model: Node, c: Imaging, m: nat)
    requires m < c.facets * c.facets
    ensures Anchors(FacetPredict(SubVisGraphs(v, c.visSlices), ModelGraphs(model, c.facets)[m], c))
            == if c.visSlices >= 1 then Anchors(v) + Anchors(model) else {}
  {
    var calls := PredictCalls(SubVisGraphs(v, c.visSlices), ModelGraphs(model, c.facets)[m], c);
    forall s | 0 <= s < |calls| ensures Anchors(calls[s]) == Anchors(v) + Anchors(model) {
      PredictCallFacts(v, model, c, IsPredictCall, s, m);
    }
    AnchorsInUniform(calls, Anchors(v) + Anchors(model));
    ListOfFacts(calls, IsPredictCall);
    WrapOne(SumPredict, Node(ListOf, calls), IsPredictCall);
  }

  /** create_predict_graph makes facets² × vis_slices predict calls for each
      visibility graph when its inputs hold none, and a counter that marks
      other kernels finds none. The gather receives one sum per facet,
      facets² results in all. */
  lemma {:induction false} PredictGraphCalls(v: Node, model: Node, c: Imaging, k: Op -> bool)
    requires KernelsOnly(k) && Occurrences(v, k) == 0 && Occurrences(model, k) == 0
    ensures Occurrences(PredictGraphFor(v, model, c), k)
            == c.facets * c.facets * c.visSlices * (if k(PredictIgnoreNone(c.context)) then 1 else 0)
    ensures PredictGraphFor(v, model, c).op == GatherVis(c.visSlices)
    ensures |PredictGraphFor(v, model, c).args[0].args| == c.facets * c.facets
  {
    var u := if k(PredictIgnoreNone(c.context)) then 1 else 0;
    var sums := FacetPredicts(SubVisGraphs(v, c.visSlices), ModelGraphs(model, c.facets), c);
    forall m | 0 <= m < |sums| ensures Occurrences(sums[m], k) == c.visSlices * u {
      FacetPredictCalls(v, model, c, k, m);
    }
    OccurrencesInUniform(sums, k, c.visSlices * u);
    ListOfFacts(sums, k);
    assert !k(GatherVis(c.visSlices));
    WrapTwo(GatherVis(c.visSlices), Node(ListOf, sums), v, k);
    MulAssoc(c.facets * c.facets, c.visSlices, u);
  }

  /** Output i of create_predict_graph depends on visibility i and, when there
      is a facet and a slice, on the model; on nothing else. */
  lemma {:induction false} PredictGraphAnchors(v: Node, model: Node, c: Imaging)
    ensures Anchors(PredictGraphFor(v, model, c))
            == Anchors(v) + (if c.facets >= 1 && c.visSlices >= 1 then Anchors(model) else {})
  {
    var sums := FacetPredicts(SubVisGraphs(v, c.visSlices), ModelGraphs(model, c.facets), c);
    var b := if c.visSlices >= 1 then Anchors(v) + Anchors(model) else {};
    forall m | 0 <= m < |sums| ensures Anchors(sums[m]) == b {
      FacetPredictAnchors(v, model, c, m);
    }
    AnchorsInUniform(sums, b);
    assert c.facets >= 1 ==> sums != [] by {
      if c.facets >= 1 {
        assert c.facets * c.facets >= 1;
      }
    }
    ListOfFacts(sums, IsPredictCall);
    WrapTwo(GatherVis(c.visSlices), Node(ListOf, sums), v, IsPredictCall);
    if c.facets >= 1 && c.visSlices >= 1 {
      assert AnchorsIn(sums) == Anchors(v) + Anchors(model);
    } else {
      assert AnchorsIn(sums) == {};
    }
  }

  /** IsInvertCall and IsPredictCall mark kernel calls only. */
  lemma KernelCounters()
    ensures KernelsOnly(IsInvertCall) && KernelsOnly(IsPredictCall)
  {
  }

  /** create_predict_graph returns one graph per visibility graph, in order,
      each with facets² × vis_slices predict calls and no invert call, and
      depending on its own visibility graph and the model only. */
  lemma PredictGraphShape(vs: seq<Node>, model: Node, c: Imaging)
    requires Occurrences(model, IsPredictCall) == 0 && Occurrences(model, IsInvertCall) == 0
    requires forall i :: 0 <= i < |vs| ==> Occurrences(vs[i], IsPredictCall) == 0 && Occurrences(vs[i], IsInvertCall) == 0
    ensures |CreatePredictGraph(vs, model, c)| == |vs|
    ensures forall i :: 0 <= i < |vs| ==>
              Occurrences(CreatePredictGraph(vs, model, c)[i], IsPredictCall) == c.facets * c.facets * c.visSlices &&
              Occurrences(CreatePredictGraph(vs, model, c)[i], IsInvertCall) == 0
    ensures forall i :: 0 <= i < |vs| ==> Anchors(CreatePredictGraph(vs, model, c)[i]) <= Anchors(vs[i]) + Anchors(model)
  {
    KernelCounters();
    forall i | 0 <= i < |vs|
      ensures Occurrences(CreatePredictGraph(vs, model, c)[i], IsPredictCall) == c.facets * c.facets * c.visSlices
      ensures Occurrences(CreatePredictGraph(vs, model, c)[i], IsInvertCall) == 0
      ensures Anchors(CreatePredictGraph(vs, model, c)[i]) <= Anchors(vs[i]) + Anchors(model)
    {
      PredictGraphCalls(vs[i], model, c, IsPredictCall);
      PredictGraphCalls(vs[i], model, c, IsInvertCall);
      PredictGraphAnchors(vs[i], model, c);
    }
  }

  // ---------------------------------------------------------------------------
  // Residual graph

  /** create_residual_graph always builds (the predicted list is as long as
      the visibility list), returns one graph per visibility graph with
      facets² × vis_slices invert calls, and output i depends on visibility i
      and the model only. */
  lemma ResidualGraphShape(vs: seq<Node>, model: Node, c: Imaging)
    requires Occurrences(model, IsPredictCall) == 0 && Occurrences(model, IsInvertCall) == 0
    requires forall i :: 0 <= i < |vs| ==> Occurrences(vs[i], IsPredictCall) == 0 && Occurrences(vs[i], IsInvertCall) == 0
    ensures CreateResidualGraph(vs, model, c).Ok?
    ensures |CreateResidualGraph(vs, model, c).value| == |vs|
    ensures forall i :: 0 <= i < |vs| ==>
              Occurrences(CreateResidualGraph(vs, model, c).value[i], IsInvertCall) == c.facets * c.facets * c.visSlices
    ensures forall i :: 0 <= i < |vs| ==> Anchors(CreateResidualGraph(vs, model, c).value[i]) <= Anchors(vs[i]) + Anchors(model)
  {
    var zero := CreateZeroVisGraphList(vs);
    var modelVis := CreatePredictGraph(zero, model, c);
    forall i | 0 <= i < |zero| ensures Occurrences(zero[i], IsPredictCall) == 0 && Occurrences(zero[i], IsInvertCall) == 0 {
      WrapOne(ZeroVis, vs[i], IsPredictCall);
      WrapOne(ZeroVis, vs[i], IsInvertCall);
    }
    ZeroVisListShape(vs);
    PredictGraphShape(zero, model, c);
    SubtractVisListShape(vs, modelVis);
    var residual := CreateSubtractVisGraphList(vs, modelVis).value;
    forall i | 0 <= i < |residual|
      ensures Occurrences(residual[i], IsInvertCall) == 0
      ensures Anchors(residual[i]) <= Anchors(vs[i]) + Anchors(model)
    {
      WrapTwo(SubtractVis, vs[i], modelVis[i], IsInvertCall);
    }
    InvertGraphShape(residual, model, c, false, true);
  }
}
