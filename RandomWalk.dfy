/**
 * The combinatorial parts of the random-walk kernel
 * (gklearn/kernels/else/rwalk_sym.py): the removal of graphs without edges,
 * the choice of computation method, the vertex-kernel table, the weight
 * matrix of the direct product graph, and the edge-label helpers.
 *
 * Graphs are those of the structural shortest-path model: nodes are 0..n-1
 * (the source renumbers them with `convert_node_labels_to_integers`) and
 * edges are listed in iteration order. The linear-algebra solvers the
 * method names dispatch to are not part of this model.
 */
module RandomWalk {
  import opened Common
  import opened Text
  import opened StructuralSp

  // ===========================================================================
  // Graphs without edges are removed (lines 96-102)

  /** Line 97: the graphs that have at least one edge, each with its position in the input. */
  function WithEdges(gs: seq<Graph>): seq<(nat, Graph)>
  {
    if gs == [] then []
    else
      var rest := WithEdges(gs[..|gs| - 1]);
      if |gs[|gs| - 1].edges| != 0 then rest + [(|gs| - 1, gs[|gs| - 1])] else rest
  }

  /** The number of graphs without edges. */
  function EdgelessCount(gs: seq<Graph>): nat
  {
    if gs == [] then 0
    else EdgelessCount(gs[..|gs| - 1]) + (if |gs[|gs| - 1].edges| == 0 then 1 else 0)
  }

  /** Lines 97-99: `idx`, the kept positions, and the kept graphs. */
  function FilterEdgeless(gs: seq<Graph>): (seq<nat>, seq<Graph>)
  {
    var kept := WithEdges(gs);
    (seq(|kept|, k requires 0 <= k < |kept| => kept[k].0), seq(|kept|, k requires 0 <= k < |kept| => kept[k].1))
  }

  /** Each kept entry is a graph with edges at its own position, and positions increase. */
  lemma {:induction false} WithEdgesSound(gs: seq<Graph>)
    ensures forall k :: 0 <= k < |WithEdges(gs)| ==>
              WithEdges(gs)[k].0 < |gs| && gs[WithEdges(gs)[k].0] == WithEdges(gs)[k].1 && |WithEdges(gs)[k].1.edges| != 0
    ensures forall k, l :: 0 <= k < l < |WithEdges(gs)| ==> WithEdges(gs)[k].0 < WithEdges(gs)[l].0
    ensures |WithEdges(gs)| + EdgelessCount(gs) == |gs|
  {
    if gs != [] {
      var front := gs[..|gs| - 1];
      WithEdgesSound(front);
      assert forall i :: 0 <= i < |front| ==> front[i] == gs[i];
    }
  }

  /** Every graph with edges is kept. */
  lemma {:induction false} WithEdgesComplete(gs: seq<Graph>, i: nat)
    requires i < |gs| && |gs[i].edges| != 0
    ensures exists k :: 0 <= k < |WithEdges(gs)| && WithEdges(gs)[k].0 == i
  {
    var front := gs[..|gs| - 1];
    var rest := WithEdges(front);
    if i < |front| {
      assert front[i] == gs[i];
      WithEdgesComplete(front, i);
      var k :| 0 <= k < |rest| && rest[k].0 == i;
      assert WithEdges(gs)[k] == rest[k];
    } else {
      assert WithEdges(gs)[|rest|].0 == i;
    }
  }

  /**
   * `idx` lists, in strictly increasing order, the positions of exactly the
   * graphs that have edges; the kept graphs are those graphs in their
   * original order; `len_gn - len(Gn)` is the number of graphs without edges.
   */
  lemma FilterEdgelessSpec(gs: seq<Graph>)
    ensures |FilterEdgeless(gs).0| == |FilterEdgeless(gs).1|
    ensures forall k, l :: 0 <= k < l < |FilterEdgeless(gs).0| ==> FilterEdgeless(gs).0[k] < FilterEdgeless(gs).0[l]
    ensures forall k :: 0 <= k < |FilterEdgeless(gs).0| ==>
              FilterEdgeless(gs).0[k] < |gs| && gs[FilterEdgeless(gs).0[k]] == FilterEdgeless(gs).1[k]
    ensures forall k :: 0 <= k < |FilterEdgeless(gs).1| ==> |FilterEdgeless(gs).1[k].edges| != 0
    ensures forall i :: 0 <= i < |gs| && |gs[i].edges| != 0 ==> i in FilterEdgeless(gs).0
    ensures |gs| - |FilterEdgeless(gs).1| == EdgelessCount(gs)
  {
    WithEdgesSound(gs);
    var idx := FilterEdgeless(gs).0;
    forall i | 0 <= i < |gs| && |gs[i].edges| != 0 ensures i in idx {
      WithEdgesComplete(gs, i);
      var k :| 0 <= k < |WithEdges(gs)| && WithEdges(gs)[k].0 == i;
      assert idx[k] == i;
    }
  }

  // ===========================================================================
  // The computation method (lines 64 and 110-139)

  /** The five method names the source accepts. */
  datatype ComputeMethod = Sylvester | Conjugate | FixedPoint | Spectral | Kron

  function MethodName(m: ComputeMethod): string
  {
    match m
    case Sylvester => "sylvester"
    case Conjugate => "conjugate"
    case FixedPoint => "fp"
    case Spectral => "spectral"
    case Kron => "kron"
  }

  /**
   * Line 64 lowercases `compute_method` (its default `None` has no `lower`),
   * and lines 110-139 pick the method whose name it equals; any other name
   * raises an exception.
   */
  function ParseMethod(name: Option<string>): Result<ComputeMethod>
  {
    match name
    case None => Err(AttributeError("'NoneType' object has no attribute 'lower'"))
    case Some(s) =>
      var m := Lower(s);
      if m == "sylvester" then Ok(Sylvester)
      else if m == "conjugate" then Ok(Conjugate)
      else if m == "fp" then Ok(FixedPoint)
      else if m == "spectral" then Ok(Spectral)
      else if m == "kron" then Ok(Kron)
      else Err(InvalidArgument("compute method name incorrect"))
  }

  /** A string without upper-case ASCII letters is its own lowercase form. */
  lemma LowerOfLower(s: string)
    requires forall k :: 0 <= k < |s| ==> !('A' <= s[k] <= 'Z')
    ensures Lower(s) == s
  {
  }

  /** Lowercasing twice is lowercasing once. */
  lemma LowerIdempotent(s: string)
    ensures Lower(Lower(s)) == Lower(s)
  {
    LowerOfLower(Lower(s));
  }

  /** Every method is selected by its own name. */
  lemma ParseMethodName(m: ComputeMethod)
    ensures ParseMethod(Some(MethodName(m))) == Ok(m)
  {
    LowerOfLower(MethodName(m));
  }

  /**
   * A name selects method m exactly when its lowercase form is m's name, and
   * every other name is an error; upper and lower case are not told apart.
   */
  lemma ParseMethodSpec(s: string)
    ensures forall m :: ParseMethod(Some(s)) == Ok(m) <==> Lower(s) == MethodName(m)
    ensures ParseMethod(Some(s)).Err? <==> forall m :: Lower(s) != MethodName(m)
    ensures ParseMethod(Some(s)) == ParseMethod(Some(Lower(s)))
  {
    LowerIdempotent(s);
  }

  /** Without a name the call fails before anything else is done. */
  lemma ParseMethodNone()
    ensures ParseMethod(None).Err? && ParseMethod(None).error.AttributeError?
  {
  }

  // ===========================================================================
  // The vertex-kernel table (lines 593-624)

  /** The node kernel of each labeled mode; attribute vectors are passed as they are. */
  function WalkNodeKernel(mode: NodeMode, nk: Kernels): (Node, Node) -> real
    requires mode != NodeNone
  {
    match mode
    case NodeMix => (x: Node, y: Node) => nk.mix(Sym(x.sym), Sym(y.sym), Vec(x.attrs), Vec(y.attrs))
    case NodeSymb => (x: Node, y: Node) => nk.symb(Sym(x.sym), Sym(y.sym))
    case NodeNsymb => (x: Node, y: Node) => nk.nsymb(Vec(x.attrs), Vec(y.attrs))
  }

  /** `vk_dict` as `computeVK` builds it. */
  function WalkVertexTable(g1: Graph, g2: Graph, attrs: DatasetAttrs, nk: Kernels): map<VKey, real>
  {
    var mode := NodeModeOf(attrs);
    if mode == NodeNone then map[] else VertexRows(g1.nodes, g2.nodes, WalkNodeKernel(mode, nk))
  }

  /**
   * `computeVK` has one entry per (n1, n2) in V1 x V2, the selected node
   * kernel of the pair, when nodes are labeled or attributed, and none
   * otherwise.
   */
  lemma WalkVertexTableSpec(g1: Graph, g2: Graph, attrs: DatasetAttrs, nk: Kernels)
    ensures NodeModeOf(attrs) == NodeNone ==> WalkVertexTable(g1, g2, attrs, nk) == map[]
    ensures NodeModeOf(attrs) != NodeNone ==>
              (forall k: VKey :: k in WalkVertexTable(g1, g2, attrs, nk) <==> k.0 < |g1.nodes| && k.1 < |g2.nodes|) &&
              (forall k: VKey :: k in WalkVertexTable(g1, g2, attrs, nk) ==>
                 WalkVertexTable(g1, g2, attrs, nk)[k] == WalkNodeKernel(NodeModeOf(attrs), nk)(g1.nodes[k.0], g2.nodes[k.1]))
  {
    if NodeModeOf(attrs) != NodeNone {
      VertexRowsSpec(g1.nodes, g2.nodes, WalkNodeKernel(NodeModeOf(attrs), nk));
    }
  }

  method ComputeVK(g1: Graph, g2: Graph, attrs: DatasetAttrs, nk: Kernels) returns (vk: map<VKey, real>)
    ensures vk == WalkVertexTable(g1, g2, attrs, nk)
  {
    var mode := NodeModeOf(attrs);
    if mode == NodeNone {
      vk := map[];
    } else {
      vk := FillVertexTable(g1.nodes, g2.nodes, WalkNodeKernel(mode, nk));
    }
  }

  // ===========================================================================
  // The weight matrix of the direct product graph (lines 630-841)

  /** Every edge of `es` joins two of the nodes 0..n-1. */
  predicate Within(es: seq<Edge>, n: nat)
  {
    forall k :: 0 <= k < |es| ==> es[k].u < n && es[k].v < n
  }

  /** Every edge joins two nodes of its graph (always so in networkx). */
  predicate WellFormed(g: Graph)
  {
    Within(g.edges, |g.nodes|)
  }

  /** Product node (u, v) is row/column `u * n2 + v` of the weight matrix. */
  function Flat(u: nat, v: nat, n2: nat): nat
  {
    u * n2 + v
  }

  lemma {:induction false} MulMonotone(a: nat, b: nat, c: nat)
    requires a <= b
    ensures a * c <= b * c
  {
    if c > 0 {
      MulMonotone(a, b, c - 1);
      assert a * c == a * (c - 1) + a && b * c == b * (c - 1) + b;
    }
  }

  lemma FlatBound(u: nat, v: nat, n1: nat, n2: nat)
    requires u < n1 && v < n2
    ensures Flat(u, v, n2) < n1 * n2
  {
    MulMonotone(u + 1, n1, n2);
    assert (u + 1) * n2 == u * n2 + n2;
  }

  /** Rows of product nodes with a smaller first component come first. */
  lemma FlatLess(u: nat, v: nat, u': nat, v': nat, n2: nat)
    requires v < n2
    ensures u < u' ==> Flat(u, v, n2) < Flat(u', v', n2)
  {
    if u < u' {
      MulMonotone(u + 1, u', n2);
      assert (u + 1) * n2 == u * n2 + n2;
    }
  }

  /** Distinct product nodes get distinct rows. */
  lemma FlatInjective(u: nat, v: nat, u': nat, v': nat, n2: nat)
    requires v < n2 && v' < n2 && Flat(u, v, n2) == Flat(u', v', n2)
    ensures u == u' && v == v'
  {
    FlatLess(u, v, u', v', n2);
    FlatLess(u', v', u, v, n2);
  }

  /** The edge kernel of each labeled mode; `None` when edges carry neither label nor attributes. */
  function WalkEdgeKernel(emode: EdgeMode, ek: Kernels): Option<(Edge, Edge) -> real>
  {
    match emode
    case EdgeMix => Some((e1: Edge, e2: Edge) => ek.mix(Sym(e1.sym), Sym(e2.sym), Vec(e1.attrs), Vec(e2.attrs)))
    case EdgeSymb => Some((e1: Edge, e2: Edge) => ek.symb(Sym(e1.sym), Sym(e2.sym)))
    case EdgeNsymb => Some((e1: Edge, e2: Edge) => ek.nsymb(Vec(e1.attrs), Vec(e2.attrs)))
    case EdgeNone => None
  }

  /** The vertex table holds every pair of V1 x V2 (as `computeVK` builds it). */
  predicate Covers(vk: map<VKey, real>, n1: nat, n2: nat)
  {
    forall a: nat, b: nat :: a < n1 && b < n2 ==> (a, b) in vk
  }

  /** A vertex-table entry; the callers below only read keys the table holds. */
  function At(vk: map<VKey, real>, a: nat, b: nat): real
  {
    if (a, b) in vk then vk[(a, b)] else 0.0
  }

  /**
   * The weight of the product edge of e1 and e2. With node labels (a
   * non-empty `vk_dict`, line 632) a directed graph gets
   * vk(u1, u2) * ke * vk(v1, v2), an undirected one adds the crossed term
   * vk(u1, v2) * ke * vk(v1, u2); without edge labels the ke factor is left
   * out. Without node labels the weight is ke, or 1.
   */
  function PairWeight(vk: map<VKey, real>, ke: Option<(Edge, Edge) -> real>, directed: bool, e1: Edge, e2: Edge): real
  {
    if |vk| > 0 then
      if directed then
        match ke
        case Some(k) => At(vk, e1.u, e2.u) * k(e1, e2) * At(vk, e1.v, e2.v)
        case None => At(vk, e1.u, e2.u) * At(vk, e1.v, e2.v)
      else
        match ke
        case Some(k) => At(vk, e1.u, e2.u) * k(e1, e2) * At(vk, e1.v, e2.v) + At(vk, e1.u, e2.v) * k(e1, e2) * At(vk, e1.v, e2.u)
        case None => At(vk, e1.u, e2.u) * At(vk, e1.v, e2.v) + At(vk, e1.u, e2.v) * At(vk, e1.v, e2.u)
    else
      match ke
      case Some(k) => k(e1, e2)
      case None => 1.0
  }

  /**
   * The cells an edge pair writes: `w_idx` = (u1*n2+u2, v1*n2+v2) and, for an
   * undirected graph, its transpose, `w_idx2` = (u1*n2+v2, v1*n2+u2) and its
   * transpose.
   */
  function Cells(e1: Edge, e2: Edge, n2: nat, directed: bool): set<(nat, nat)>
  {
    var a := Flat(e1.u, e2.u, n2);
    var b := Flat(e1.v, e2.v, n2);
    var a2 := Flat(e1.u, e2.v, n2);
    var b2 := Flat(e1.v, e2.u, n2);
    if directed then {(a, b)} else {(a, b), (b, a), (a2, b2), (b2, a2)}
  }

  /** The written cells after one edge pair: every cell of `cells` holds x. */
  function Place(m: map<(nat, nat), real>, cells: set<(nat, nat)>, x: real): map<(nat, nat), real>
  {
    m + map c | c in cells :: x
  }

  function WRow(m: map<(nat, nat), real>, e1: Edge, es2: seq<Edge>, n2: nat, directed: bool,
                weight: (Edge, Edge) -> real): map<(nat, nat), real>
  {
    if es2 == [] then m
    else
      var e2 := es2[|es2| - 1];
      Place(WRow(m, e1, es2[..|es2| - 1], n2, directed, weight), Cells(e1, e2, n2, directed), weight(e1, e2))
  }

  /** The non-zero cells after the loops over `es1` x `es2`, later writes replacing earlier ones. */
  function WRows(es1: seq<Edge>, es2: seq<Edge>, n2: nat, directed: bool,
                 weight: (Edge, Edge) -> real): map<(nat, nat), real>
  {
    if es1 == [] then map[]
    else WRow(WRows(es1[..|es1| - 1], es2, n2, directed, weight), es1[|es1| - 1], es2, n2, directed, weight)
  }

  /** The weight of each product edge for the given table, edge kernel and direction. */
  function Weights(vk: map<VKey, real>, attrs: DatasetAttrs, ek: Kernels): (Edge, Edge) -> real
  {
    var ke := WalkEdgeKernel(EdgeModeOf(attrs), ek);
    (e1: Edge, e2: Edge) => PairWeight(vk, ke, attrs.directed, e1, e2)
  }

  /** The cells `computeW` writes, with their final values. */
  function WeightCells(g1: Graph, g2: Graph, vk: map<VKey, real>, attrs: DatasetAttrs, ek: Kernels): map<(nat, nat), real>
  {
    WRows(g1.edges, g2.edges, |g2.nodes|, attrs.directed, Weights(vk, attrs, ek))
  }

  /** A matrix cell: its written value, or the 0 of `np.zeros`. */
  function Cell(m: map<(nat, nat), real>, x: nat, y: nat): real
  {
    if (x, y) in m then m[(x, y)] else 0.0
  }

  /** Lines 642-643 and their variants: the writes of one edge pair, in source order. */
  method PlacePair(w: array2<real>, e1: Edge, e2: Edge, n2: nat, directed: bool, x: real)
    requires forall c :: c in Cells(e1, e2, n2, directed) ==> c.0 < w.Length0 && c.1 < w.Length1
    modifies w
    ensures forall a, b :: 0 <= a < w.Length0 && 0 <= b < w.Length1 ==>
              w[a, b] == if (a, b) in Cells(e1, e2, n2, directed) then x else old(w[a, b])
  {
    var wi := (e1.u * n2 + e2.u, e1.v * n2 + e2.v);
    assert wi in Cells(e1, e2, n2, directed);
    w[wi.0, wi.1] := x;
    if !directed {
      var wi2 := (e1.u * n2 + e2.v, e1.v * n2 + e2.u);
      assert (wi.1, wi.0) in Cells(e1, e2, n2, directed) && wi2 in Cells(e1, e2, n2, directed);
      assert (wi2.1, wi2.0) in Cells(e1, e2, n2, directed);
      w[wi.1, wi.0] := w[wi.0, wi.1];
      w[wi2.0, wi2.1] := w[wi.0, wi.1];
      w[wi2.1, wi2.0] := w[wi.0, wi.1];
    }
  }

  /** The cells of an edge pair lie in the n1*n2 x n1*n2 matrix. */
  lemma CellsInRange(e1: Edge, e2: Edge, n1: nat, n2: nat, directed: bool)
    requires e1.u < n1 && e1.v < n1 && e2.u < n2 && e2.v < n2
    ensures forall c :: c in Cells(e1, e2, n2, directed) ==> c.0 < n1 * n2 && c.1 < n1 * n2
  {
    FlatBound(e1.u, e2.u, n1, n2);
    FlatBound(e1.v, e2.v, n1, n2);
    FlatBound(e1.u, e2.v, n1, n2);
    FlatBound(e1.v, e2.u, n1, n2);
  }

  /** The inner loop over the edges of G2 for one edge e1 of G1. */
  method WriteRow(w: array2<real>, e1: Edge, es2: seq<Edge>, n1: nat, n2: nat, directed: bool,
                  weight: (Edge, Edge) -> real, ghost before: map<(nat, nat), real>)
    requires w.Length0 == n1 * n2 && w.Length1 == n1 * n2
    requires e1.u < n1 && e1.v < n1 && forall e :: e in es2 ==> e.u < n2 && e.v < n2
    requires forall x, y :: 0 <= x < w.Length0 && 0 <= y < w.Length1 ==> w[x, y] == Cell(before, x, y)
    modifies w
    ensures forall x, y :: 0 <= x < w.Length0 && 0 <= y < w.Length1 ==>
              w[x, y] == Cell(WRow(before, e1, es2, n2, directed, weight), x, y)
  {
    var j := 0;
    while j < |es2|
      invariant j <= |es2|
      invariant forall x, y :: 0 <= x < w.Length0 && 0 <= y < w.Length1 ==>
                  w[x, y] == Cell(WRow(before, e1, es2[..j], n2, directed, weight), x, y)
    {
      var e2 := es2[j];
      assert e2 in es2;
      CellsInRange(e1, e2, n1, n2, directed);
      PlacePair(w, e1, e2, n2, directed, weight(e1, e2));
      assert es2[..j + 1][..j] == es2[..j];
      j := j + 1;
    }
    assert es2[..j] == es2;
  }

  /**
   * `computeW`: a zero `w_dim` x `w_dim` matrix, `w_dim = n1 * n2`, whose
   * cells are then written edge pair by edge pair.
   */
  method ComputeW(g1: Graph, g2: Graph, vk: map<VKey, real>, attrs: DatasetAttrs, ek: Kernels)
    returns (w: array2<real>, wDim: nat)
    requires WellFormed(g1) && WellFormed(g2)
    ensures wDim == |g1.nodes| * |g2.nodes|
    ensures fresh(w) && w.Length0 == wDim && w.Length1 == wDim
    ensures forall x, y :: 0 <= x < wDim && 0 <= y < wDim ==> w[x, y] == Cell(WeightCells(g1, g2, vk, attrs, ek), x, y)
    ensures !attrs.directed ==> forall x, y :: 0 <= x < wDim && 0 <= y < wDim ==> w[x, y] == w[y, x]
  {
    var n1 := |g1.nodes|;
    var n2 := |g2.nodes|;
    wDim := n1 * n2;
    w := new real[wDim, wDim]((x, y) => 0.0);
    WriteRows(w, g1.edges, g2.edges, n1, n2, attrs.directed, Weights(vk, attrs, ek));
    if !attrs.directed {
      WeightCellsSymmetric(g1, g2, vk, attrs, ek);
      ArraySymmetric(w, WeightCells(g1, g2, vk, attrs, ek));
    }
  }

  /** The outer loop over the edges of G1, on a zero matrix. */
  method WriteRows(w: array2<real>, es1: seq<Edge>, es2: seq<Edge>, n1: nat, n2: nat, directed: bool,
                   weight: (Edge, Edge) -> real)
    requires w.Length0 == n1 * n2 && w.Length1 == n1 * n2
    requires Within(es1, n1) && Within(es2, n2)
    requires forall x, y :: 0 <= x < w.Length0 && 0 <= y < w.Length1 ==> w[x, y] == 0.0
    modifies w
    ensures forall x, y :: 0 <= x < w.Length0 && 0 <= y < w.Length1 ==>
              w[x, y] == Cell(WRows(es1, es2, n2, directed, weight), x, y)
  {
    assert forall e :: e in es2 ==> e.u < n2 && e.v < n2;
    var i := 0;
    while i < |es1|
      invariant i <= |es1|
      invariant forall x, y :: 0 <= x < w.Length0 && 0 <= y < w.Length1 ==>
                  w[x, y] == Cell(WRows(es1[..i], es2, n2, directed, weight), x, y)
    {
      WriteRow(w, es1[i], es2, n1, n2, directed, weight, WRows(es1[..i], es2, n2, directed, weight));
      assert es1[..i + 1][..i] == es1[..i];
      i := i + 1;
    }
    assert es1[..i] == es1;
  }

  /** A matrix that holds a symmetric table is symmetric. */
  lemma ArraySymmetric(w: array2<real>, cells: map<(nat, nat), real>)
    requires forall x: nat, y: nat :: Cell(cells, x, y) == Cell(cells, y, x)
    requires forall x, y :: 0 <= x < w.Length0 && 0 <= y < w.Length1 ==> w[x, y] == Cell(cells, x, y)
    requires w.Length0 == w.Length1
    ensures forall x, y :: 0 <= x < w.Length0 && 0 <= y < w.Length1 ==> w[x, y] == w[y, x]
  {
    forall x, y | 0 <= x < w.Length0 && 0 <= y < w.Length1 ensures w[x, y] == w[y, x] {
      assert w[x, y] == Cell(cells, x, y) && w[y, x] == Cell(cells, y, x);
    }
  }

  // ---------------------------------------------------------------------------
  // What the weight matrix holds

  /** Two edges join the same nodes: in the same direction, or in either when undirected. */
  predicate Parallel(e: Edge, f: Edge, directed: bool)
  {
    if directed then e.u == f.u && e.v == f.v else SameEnds(e, f)
  }

  /**
   * No two edges of the list are parallel: a networkx `DiGraph` holds each
   * (u, v) once, a `Graph` each {u, v} once.
   */
  predicate NoParallel(es: seq<Edge>, directed: bool)
  {
    forall i, j :: 0 <= i < j < |es| ==> !Parallel(es[i], es[j], directed)
  }

  /** Equal rows mean equal product nodes (both directions of `FlatInjective`). */
  lemma FlatEq(u: nat, v: nat, u': nat, v': nat, n2: nat)
    requires v < n2 && v' < n2
    ensures Flat(u, v, n2) == Flat(u', v', n2) <==> u == u' && v == v'
  {
    if Flat(u, v, n2) == Flat(u', v', n2) {
      FlatInjective(u, v, u', v', n2);
    }
  }

  /** Two edge pairs sharing a cell are parallel on both sides. */
  lemma CellsDetermine(e1: Edge, e2: Edge, f1: Edge, f2: Edge, n2: nat, directed: bool, c: (nat, nat))
    requires e2.u < n2 && e2.v < n2 && f2.u < n2 && f2.v < n2
    requires c in Cells(e1, e2, n2, directed) && c in Cells(f1, f2, n2, directed)
    ensures Parallel(e1, f1, directed) && Parallel(e2, f2, directed)
  {
    FlatEq(e1.u, e2.u, f1.u, f2.u, n2); FlatEq(e1.u, e2.u, f1.v, f2.v, n2);
    FlatEq(e1.u, e2.u, f1.u, f2.v, n2); FlatEq(e1.u, e2.u, f1.v, f2.u, n2);
    FlatEq(e1.v, e2.v, f1.u, f2.u, n2); FlatEq(e1.v, e2.v, f1.v, f2.v, n2);
    FlatEq(e1.v, e2.v, f1.u, f2.v, n2); FlatEq(e1.v, e2.v, f1.v, f2.u, n2);
    FlatEq(e1.u, e2.v, f1.u, f2.u, n2); FlatEq(e1.u, e2.v, f1.v, f2.v, n2);
    FlatEq(e1.u, e2.v, f1.u, f2.v, n2); FlatEq(e1.u, e2.v, f1.v, f2.u, n2);
    FlatEq(e1.v, e2.u, f1.u, f2.u, n2); FlatEq(e1.v, e2.u, f1.v, f2.v, n2);
    FlatEq(e1.v, e2.u, f1.u, f2.v, n2); FlatEq(e1.v, e2.u, f1.v, f2.u, n2);
  }

  /** Cell c is written by edge e1 paired with some edge of `es2`. */
  predicate RowCell(c: (nat, nat), e1: Edge, es2: seq<Edge>, n2: nat, directed: bool)
  {
    exists j :: 0 <= j < |es2| && c in Cells(e1, es2[j], n2, directed)
  }

  /** Cell c is written by some pair of `es1` x `es2`. */
  predicate TableCell(c: (nat, nat), es1: seq<Edge>, es2: seq<Edge>, n2: nat, directed: bool)
  {
    exists i, j :: 0 <= i < |es1| && 0 <= j < |es2| && c in Cells(es1[i], es2[j], n2, directed)
  }

  lemma {:induction false} WRowCells(m: map<(nat, nat), real>, e1: Edge, es2: seq<Edge>, n2: nat, directed: bool,
                                     weight: (Edge, Edge) -> real)
    ensures forall c :: c in WRow(m, e1, es2, n2, directed, weight) <==> c in m || RowCell(c, e1, es2, n2, directed)
  {
    if es2 != [] {
      var front := es2[..|es2| - 1];
      WRowCells(m, e1, front, n2, directed, weight);
      forall c ensures RowCell(c, e1, es2, n2, directed) <==>
                       RowCell(c, e1, front, n2, directed) || c in Cells(e1, es2[|es2| - 1], n2, directed)
      {
        if j :| 0 <= j < |es2| && c in Cells(e1, es2[j], n2, directed) {
          if j < |front| {
            assert front[j] == es2[j];
          }
        }
        if j :| 0 <= j < |front| && c in Cells(e1, front[j], n2, directed) {
          assert es2[j] == front[j];
        }
      }
    }
  }

  lemma {:induction false} WRowsCells(es1: seq<Edge>, es2: seq<Edge>, n2: nat, directed: bool,
                                      weight: (Edge, Edge) -> real)
    ensures forall c :: c in WRows(es1, es2, n2, directed, weight) <==> TableCell(c, es1, es2, n2, directed)
  {
    if es1 != [] {
      var front := es1[..|es1| - 1];
      var last := es1[|es1| - 1];
      WRowsCells(front, es2, n2, directed, weight);
      WRowCells(WRows(front, es2, n2, directed, weight), last, es2, n2, directed, weight);
      forall c ensures TableCell(c, es1, es2, n2, directed) <==>
                       TableCell(c, front, es2, n2, directed) || RowCell(c, last, es2, n2, directed)
      {
        if i, j :| 0 <= i < |es1| && 0 <= j < |es2| && c in Cells(es1[i], es2[j], n2, directed) {
          if i < |front| {
            assert front[i] == es1[i];
          }
        }
        if i, j :| 0 <= i < |front| && 0 <= j < |es2| && c in Cells(front[i], es2[j], n2, directed) {
          assert es1[i] == front[i];
        }
      }
    }
  }

  /**
   * Lines 633-841: the only non-zero cells of W are those an edge pair
   * writes; every other cell keeps the 0 of `np.zeros`.
   */
  lemma WeightCellsWritten(g1: Graph, g2: Graph, vk: map<VKey, real>, attrs: DatasetAttrs, ek: Kernels)
    ensures forall c :: c in WeightCells(g1, g2, vk, attrs, ek) <==> TableCell(c, g1.edges, g2.edges, |g2.nodes|, attrs.directed)
    ensures forall x: nat, y: nat :: !TableCell((x, y), g1.edges, g2.edges, |g2.nodes|, attrs.directed) ==>
              Cell(WeightCells(g1, g2, vk, attrs, ek), x, y) == 0.0
  {
    WRowsCells(g1.edges, g2.edges, |g2.nodes|, attrs.directed, Weights(vk, attrs, ek));
  }

  /** A map that holds (y, x) with the same value whenever it holds (x, y). */
  predicate SymmetricCells(m: map<(nat, nat), real>)
  {
    forall c :: c in m ==> (c.1, c.0) in m && m[(c.1, c.0)] == m[c]
  }

  /** Writing one value to a set of cells closed under transposition keeps a map symmetric. */
  lemma PlaceSymmetric(m: map<(nat, nat), real>, cells: set<(nat, nat)>, x: real)
    requires SymmetricCells(m)
    requires forall c :: c in cells ==> (c.1, c.0) in cells
    ensures SymmetricCells(Place(m, cells, x))
  {
    var p := Place(m, cells, x);
    forall c | c in p ensures (c.1, c.0) in p && p[(c.1, c.0)] == p[c] {
      if c in cells {
        assert (c.1, c.0) in cells;
      } else {
        assert c in m && (c.1, c.0) in m;
        assert (c.1, c.0) !in cells;
      }
    }
  }

  lemma {:induction false} WRowSymmetric(m: map<(nat, nat), real>, e1: Edge, es2: seq<Edge>, n2: nat,
                                         weight: (Edge, Edge) -> real)
    requires SymmetricCells(m)
    ensures SymmetricCells(WRow(m, e1, es2, n2, false, weight))
  {
    if es2 != [] {
      var e2 := es2[|es2| - 1];
      WRowSymmetric(m, e1, es2[..|es2| - 1], n2, weight);
      PlaceSymmetric(WRow(m, e1, es2[..|es2| - 1], n2, false, weight), Cells(e1, e2, n2, false), weight(e1, e2));
    }
  }

  lemma {:induction false} WRowsSymmetric(es1: seq<Edge>, es2: seq<Edge>, n2: nat,
                                          weight: (Edge, Edge) -> real)
    ensures SymmetricCells(WRows(es1, es2, n2, false, weight))
  {
    if es1 != [] {
      WRowsSymmetric(es1[..|es1| - 1], es2, n2, weight);
      WRowSymmetric(WRows(es1[..|es1| - 1], es2, n2, false, weight), es1[|es1| - 1], es2, n2, weight);
    }
  }

  /**
   * Lines 675-841: for undirected graphs every pair writes `w_idx`, its
   * transpose, `w_idx2` and its transpose with one value, so W is symmetric.
   */
  lemma WeightCellsSymmetric(g1: Graph, g2: Graph, vk: map<VKey, real>, attrs: DatasetAttrs, ek: Kernels)
    requires !attrs.directed
    ensures forall x: nat, y: nat :: Cell(WeightCells(g1, g2, vk, attrs, ek), x, y) == Cell(WeightCells(g1, g2, vk, attrs, ek), y, x)
  {
    WRowsSymmetric(g1.edges, g2.edges, |g2.nodes|, Weights(vk, attrs, ek));
  }

  /** A row whose edge pairs do not write cell c leaves c as it was. */
  lemma {:induction false} WRowUntouched(m: map<(nat, nat), real>, e1: Edge, es2: seq<Edge>, n2: nat, directed: bool,
                                         weight: (Edge, Edge) -> real, c: (nat, nat))
    requires !RowCell(c, e1, es2, n2, directed)
    ensures (c in WRow(m, e1, es2, n2, directed, weight) <==> c in m) &&
            (c in m ==> WRow(m, e1, es2, n2, directed, weight)[c] == m[c])
  {
    if es2 != [] {
      var front := es2[..|es2| - 1];
      forall j | 0 <= j < |front| ensures c !in Cells(e1, front[j], n2, directed) {
        assert front[j] == es2[j];
      }
      WRowUntouched(m, e1, front, n2, directed, weight, c);
    }
  }

  /** Within a row, pair j keeps its weight in its cells when no later edge is parallel to edge j. */
  lemma {:induction false} WRowValue(m: map<(nat, nat), real>, e1: Edge, es2: seq<Edge>, n2: nat, directed: bool,
                                     weight: (Edge, Edge) -> real, j: nat, c: (nat, nat))
    requires Within(es2, n2) && j < |es2| && c in Cells(e1, es2[j], n2, directed)
    requires forall j' :: j < j' < |es2| ==> !Parallel(es2[j], es2[j'], directed)
    ensures c in WRow(m, e1, es2, n2, directed, weight) &&
            WRow(m, e1, es2, n2, directed, weight)[c] == weight(e1, es2[j])
  {
    var front := es2[..|es2| - 1];
    var last := es2[|es2| - 1];
    if j < |es2| - 1 {
      assert front[j] == es2[j];
      assert Within(front, n2) by {
        forall e | e in front ensures e.u < n2 && e.v < n2 {
          assert e in es2;
        }
      }
      WRowValue(m, e1, front, n2, directed, weight, j, c);
      assert es2[j] in es2 && last in es2;
      if c in Cells(e1, last, n2, directed) {
        CellsDetermine(e1, es2[j], e1, last, n2, directed, c);
        assert false;
      }
    }
  }

  lemma {:induction false} WRowsValue(es1: seq<Edge>, es2: seq<Edge>, n2: nat, directed: bool,
                                      weight: (Edge, Edge) -> real, i: nat, j: nat, c: (nat, nat))
    requires Within(es2, n2) && NoParallel(es1, directed) && NoParallel(es2, directed)
    requires i < |es1| && j < |es2| && c in Cells(es1[i], es2[j], n2, directed)
    ensures c in WRows(es1, es2, n2, directed, weight) &&
            WRows(es1, es2, n2, directed, weight)[c] == weight(es1[i], es2[j])
  {
    var front := es1[..|es1| - 1];
    var last := es1[|es1| - 1];
    if i == |es1| - 1 {
      WRowValue(WRows(front, es2, n2, directed, weight), last, es2, n2, directed, weight, j, c);
    } else {
      assert front[i] == es1[i];
      assert NoParallel(front, directed) by {
        forall a, b | 0 <= a < b < |front| ensures !Parallel(front[a], front[b], directed) {
          assert front[a] == es1[a] && front[b] == es1[b];
        }
      }
      WRowsValue(front, es2, n2, directed, weight, i, j, c);
      assert !RowCell(c, last, es2, n2, directed) by {
        if j' :| 0 <= j' < |es2| && c in Cells(last, es2[j'], n2, directed) {
          assert es2[j] in es2 && es2[j'] in es2;
          CellsDetermine(es1[i], es2[j], last, es2[j'], n2, directed, c);
          assert false;
        }
      }
      WRowUntouched(WRows(front, es2, n2, directed, weight), last, es2, n2, directed, weight, c);
    }
  }

  /**
   * Lines 633-841: when neither graph has parallel edges, every cell an edge
   * pair writes holds that pair's weight: vk * ke * vk (directed) or
   * vk * ke * vk plus the crossed term (undirected) with node labels, ke or 1
   * without.
   */
  lemma WeightCellsValue(g1: Graph, g2: Graph, vk: map<VKey, real>, attrs: DatasetAttrs, ek: Kernels, i: nat, j: nat)
    requires WellFormed(g2) && NoParallel(g1.edges, attrs.directed) && NoParallel(g2.edges, attrs.directed)
    requires i < |g1.edges| && j < |g2.edges|
    ensures forall c :: c in Cells(g1.edges[i], g2.edges[j], |g2.nodes|, attrs.directed) ==>
              Cell(WeightCells(g1, g2, vk, attrs, ek), c.0, c.1) ==
                PairWeight(vk, WalkEdgeKernel(EdgeModeOf(attrs), ek), attrs.directed, g1.edges[i], g2.edges[j])
  {
    forall c | c in Cells(g1.edges[i], g2.edges[j], |g2.nodes|, attrs.directed)
      ensures Cell(WeightCells(g1, g2, vk, attrs, ek), c.0, c.1) ==
                PairWeight(vk, WalkEdgeKernel(EdgeModeOf(attrs), ek), attrs.directed, g1.edges[i], g2.edges[j])
    {
      WRowsValue(g1.edges, g2.edges, |g2.nodes|, attrs.directed, Weights(vk, attrs, ek), i, j, c);
    }
  }

  // ===========================================================================
  // Edge labels (lines 561-578)

  /** An edge's label: the label of its first node, its own label, the label of its second node. */
  type Triple = (string, string, string)

  /** Lines 567-571: for an undirected graph the smaller node label comes first. */
  function EdgeTriple(g: Graph, e: Edge, directed: bool): Triple
    requires e.u < |g.nodes| && e.v < |g.nodes|
  {
    var nl1 := g.nodes[e.u].sym;
    var nl2 := g.nodes[e.v].sym;
    if !directed && !StrLe(nl1, nl2) then (nl2, e.sym, nl1) else (nl1, e.sym, nl2)
  }

  /**
   * The middle of a triple is the edge label and its ends are the two node
   * labels; directed edges keep their order, undirected ones are ordered so
   * that the first is at most the second, and both orientations of an
   * undirected edge get the same triple.
   */
  lemma EdgeTripleSpec(g: Graph, e: Edge, directed: bool)
    requires e.u < |g.nodes| && e.v < |g.nodes|
    ensures EdgeTriple(g, e, directed).1 == e.sym
    ensures directed ==> EdgeTriple(g, e, directed) == (g.nodes[e.u].sym, e.sym, g.nodes[e.v].sym)
    ensures !directed ==> StrLe(EdgeTriple(g, e, directed).0, EdgeTriple(g, e, directed).2)
    ensures !directed ==> EdgeTriple(g, e, directed) == (g.nodes[e.u].sym, e.sym, g.nodes[e.v].sym) ||
                          EdgeTriple(g, e, directed) == (g.nodes[e.v].sym, e.sym, g.nodes[e.u].sym)
    ensures !directed ==> EdgeTriple(g, Edge(e.v, e.u, e.sym, e.attrs), directed) == EdgeTriple(g, e, directed)
  {
    var nl1 := g.nodes[e.u].sym;
    var nl2 := g.nodes[e.v].sym;
    StrLeTotal(nl1, nl2);
    if StrLe(nl1, nl2) && StrLe(nl2, nl1) {
      StrLeAntisymmetric(nl1, nl2);
    }
  }

  /** `label_g` after the edges `es`: each edge's triple under the key (u, v). */
  function EdgeLabels(g: Graph, es: seq<Edge>, directed: bool): map<(nat, nat), Triple>
    requires Within(es, |g.nodes|)
  {
    if es == [] then map[]
    else
      var e := es[|es| - 1];
      EdgeLabels(g, es[..|es| - 1], directed)[(e.u, e.v) := EdgeTriple(g, e, directed)]
  }

  /** `label_list`: one table per graph. */
  function LabelLists(gs: seq<Graph>, directed: bool): (lists: seq<map<(nat, nat), Triple>>)
    requires forall k :: 0 <= k < |gs| ==> WellFormed(gs[k])
    ensures |lists| == |gs|
  {
    seq(|gs|, k requires 0 <= k < |gs| => assert WellFormed(gs[k]); EdgeLabels(gs[k], gs[k].edges, directed))
  }

  /** Line 577: `label_set`, the distinct triples of all tables. */
  function LabelSet(lists: seq<map<(nat, nat), Triple>>): set<Triple>
  {
    set k, t | 0 <= k < |lists| && t in lists[k].Values :: t
  }

  /** The keys of `label_g` are exactly the (u, v) of the graph's edges. */
  lemma {:induction false} EdgeLabelsKeys(g: Graph, es: seq<Edge>, directed: bool)
    requires Within(es, |g.nodes|)
    ensures forall i :: 0 <= i < |es| ==> (es[i].u, es[i].v) in EdgeLabels(g, es, directed)
    ensures forall key :: key in EdgeLabels(g, es, directed) ==> exists i :: 0 <= i < |es| && (es[i].u, es[i].v) == key
  {
    if es != [] {
      var front := es[..|es| - 1];
      EdgeLabelsKeys(g, front, directed);
      forall key | key in EdgeLabels(g, es, directed)
        ensures exists i :: 0 <= i < |es| && (es[i].u, es[i].v) == key
      {
        if key != (es[|es| - 1].u, es[|es| - 1].v) {
          var i :| 0 <= i < |front| && (front[i].u, front[i].v) == key;
          assert es[i] == front[i];
        }
      }
    }
  }

  /** Edge i's triple is in `label_g` unless a later edge has the same (u, v). */
  lemma {:induction false} EdgeLabelsValue(g: Graph, es: seq<Edge>, directed: bool, i: nat)
    requires Within(es, |g.nodes|) && i < |es|
    requires forall j :: i < j < |es| ==> !Parallel(es[i], es[j], true)
    ensures (es[i].u, es[i].v) in EdgeLabels(g, es, directed)
    ensures EdgeLabels(g, es, directed)[(es[i].u, es[i].v)] == EdgeTriple(g, es[i], directed)
  {
    if i < |es| - 1 {
      var front := es[..|es| - 1];
      assert front[i] == es[i];
      EdgeLabelsValue(g, front, directed, i);
    }
  }

  /** A graph without parallel edges has no two edges with the same (u, v). */
  lemma NoParallelOrdered(es: seq<Edge>, directed: bool)
    requires NoParallel(es, directed)
    ensures NoParallel(es, true)
  {
  }

  /** Graph k holds edge i. */
  predicate LabelOf(gs: seq<Graph>, directed: bool, t: Triple)
    requires forall k :: 0 <= k < |gs| ==> WellFormed(gs[k])
  {
    exists k, i :: 0 <= k < |gs| && WellFormed(gs[k]) && 0 <= i < |gs[k].edges| && EdgeTriple(gs[k], gs[k].edges[i], directed) == t
  }

  /**
   * Lines 563-578: when no graph has parallel edges, `label_g` maps each
   * edge's (u, v) to its triple and nothing else, and `len(label_set)` counts
   * the distinct triples of all edges of all graphs.
   */
  lemma GetLabelsSpec(gs: seq<Graph>, directed: bool)
    requires forall k :: 0 <= k < |gs| ==> WellFormed(gs[k]) && NoParallel(gs[k].edges, directed)
    ensures forall k, i :: 0 <= k < |gs| && 0 <= i < |gs[k].edges| ==>
              (gs[k].edges[i].u, gs[k].edges[i].v) in LabelLists(gs, directed)[k] &&
              LabelLists(gs, directed)[k][(gs[k].edges[i].u, gs[k].edges[i].v)] == EdgeTriple(gs[k], gs[k].edges[i], directed)
    ensures forall t :: t in LabelSet(LabelLists(gs, directed)) <==> LabelOf(gs, directed, t)
  {
    var lists := LabelLists(gs, directed);
    forall k, i | 0 <= k < |gs| && 0 <= i < |gs[k].edges|
      ensures (gs[k].edges[i].u, gs[k].edges[i].v) in lists[k] &&
              lists[k][(gs[k].edges[i].u, gs[k].edges[i].v)] == EdgeTriple(gs[k], gs[k].edges[i], directed)
    {
      NoParallelOrdered(gs[k].edges, directed);
      EdgeLabelsValue(gs[k], gs[k].edges, directed, i);
    }
    forall t ensures t in LabelSet(lists) <==> LabelOf(gs, directed, t) {
      if t in LabelSet(lists) {
        var k :| 0 <= k < |lists| && t in lists[k].Values;
        var key :| key in lists[k] && lists[k][key] == t;
        EdgeLabelsKeys(gs[k], gs[k].edges, directed);
        var i :| 0 <= i < |gs[k].edges| && (gs[k].edges[i].u, gs[k].edges[i].v) == key;
        assert EdgeTriple(gs[k], gs[k].edges[i], directed) == t;
      }
      if LabelOf(gs, directed, t) {
        var k, i :| 0 <= k < |gs| && WellFormed(gs[k]) && 0 <= i < |gs[k].edges| && EdgeTriple(gs[k], gs[k].edges[i], directed) == t;
        var key := (gs[k].edges[i].u, gs[k].edges[i].v);
        assert key in lists[k] && lists[k][key] == t;
        assert t in lists[k].Values;
      }
    }
  }

  /** `getLabels`: the table of every graph, then the number of distinct triples. */
  method GetLabels(gs: seq<Graph>, directed: bool) returns (labelList: seq<map<(nat, nat), Triple>>, count: nat)
    requires forall k :: 0 <= k < |gs| ==> WellFormed(gs[k])
    ensures labelList == LabelLists(gs, directed)
    ensures count == |LabelSet(labelList)|
  {
    labelList := [];
    for k := 0 to |gs|
      invariant labelList == LabelLists(gs[..k], directed)
    {
      var g := gs[k];
      var labelG := map[];
      for i := 0 to |g.edges|
        invariant labelG == EdgeLabels(g, g.edges[..i], directed)
      {
        var e := g.edges[i];
        var nl1 := g.nodes[e.u].sym;
        var nl2 := g.nodes[e.v].sym;
        if !directed && !StrLe(nl1, nl2) {
          nl1, nl2 := nl2, nl1;
        }
        assert g.edges[..i + 1][..i] == g.edges[..i];
        labelG := labelG[(e.u, e.v) := (nl1, e.sym, nl2)];
      }
      assert g.edges[..|g.edges|] == g.edges;
      labelList := labelList + [labelG];
    }
    assert gs[..|gs|] == gs;
    count := |set k, t | 0 <= k < |labelList| && t in labelList[k].Values :: t|;
  }

  // ===========================================================================
  // Filtering the adjacency matrix by an edge label (lines 581-590)

  /**
   * Cell (x, y) is copied: (y, x) is one of the keys `done` labeled `label`
   * (line 587), or the graph is undirected and (x, y) is (line 589).
   */
  predicate Copied(labels: map<(nat, nat), Triple>, done: set<(nat, nat)>, wanted: Triple, directed: bool, x: nat, y: nat)
  {
    ((y, x) in done && (y, x) in labels && labels[(y, x)] == wanted) ||
    (!directed && (x, y) in done && (x, y) in labels && labels[(x, y)] == wanted)
  }

  /** The cells key (n1, n2) copies lie inside a rows x cols matrix. */
  predicate InRange(key: (nat, nat), rows: nat, cols: nat, directed: bool)
  {
    key.1 < rows && key.0 < cols && (directed || (key.0 < rows && key.1 < cols))
  }

  /**
   * `filterGramMatrix`: a zero matrix of the input's shape into which the
   * cells of every edge labeled `label` are copied; a key outside the matrix
   * raises an IndexError. The dictionary's iteration order does not matter.
   */
  method FilterGramMatrix(gmt: array2<real>, labels: map<(nat, nat), Triple>, wanted: Triple, directed: bool)
    returns (r: Result<array2<real>>)
    ensures r.Err? <==> exists key :: key in labels && labels[key] == wanted && !InRange(key, gmt.Length0, gmt.Length1, directed)
    ensures r.Ok? ==> fresh(r.value) && r.value.Length0 == gmt.Length0 && r.value.Length1 == gmt.Length1
    ensures r.Ok? ==> forall x, y :: 0 <= x < gmt.Length0 && 0 <= y < gmt.Length1 ==>
              r.value[x, y] == if Copied(labels, labels.Keys, wanted, directed, x, y) then gmt[x, y] else 0.0
  {
    var gmf := new real[gmt.Length0, gmt.Length1]((x, y) => 0.0);
    var todo := labels.Keys;
    while todo != {}
      invariant todo <= labels.Keys
      invariant forall key :: key in labels.Keys - todo && labels[key] == wanted ==> InRange(key, gmt.Length0, gmt.Length1, directed)
      invariant forall x, y :: 0 <= x < gmt.Length0 && 0 <= y < gmt.Length1 ==>
                  gmf[x, y] == if Copied(labels, labels.Keys - todo, wanted, directed, x, y) then gmt[x, y] else 0.0
      decreases |todo|
    {
      var key: (nat, nat) :| key in todo;
      if labels[key] == wanted {
        if !InRange(key, gmt.Length0, gmt.Length1, directed) {
          return Err(IndexError("index out of bounds"));
        }
        gmf[key.1, key.0] := gmt[key.1, key.0];
        if !directed {
          gmf[key.0, key.1] := gmt[key.0, key.1];
        }
      }
      todo := todo - {key};
    }
    r := Ok(gmf);
  }
}
