/**
 * Structural shortest-path kernel (pygraph/kernels/structuralspKernel.py).
 *
 * A graph's nodes are 0..n-1 in iteration order and its edges are listed in
 * networkx iteration order. Node and edge kernels are supplied by the caller;
 * "all shortest paths between two nodes" is an oracle. The kernel between two
 * graphs compares every path of one with every path of the other: pairs of
 * equal length contribute the product of the vertex kernels at aligned
 * positions and the edge kernels on aligned segments, and the sum is divided
 * by the number of path pairs.
 */
module StructuralSp {
  import opened Common

  // ===========================================================================
  // Graphs, labels and kernels

  /** A node's symbolic label and its attribute vector. */
  datatype Node = Node(sym: string, attrs: seq<real>)

  /** An edge from node u to node v with its symbolic label and attribute vector. */
  datatype Edge = Edge(u: nat, v: nat, sym: string, attrs: seq<real>)

  datatype Graph = Graph(nodes: seq<Node>, edges: seq<Edge>)

  /**
   * What a kernel function receives: a symbolic label, an attribute vector,
   * or a list of attribute vectors (this kernel wraps every attribute vector
   * in a one-element list before passing it on).
   */
  datatype Value = Sym(s: string) | Vec(xs: seq<real>) | Rows(rows: seq<seq<real>>)

  /** The caller's kernel dictionary: its 'symb', 'nsymb' and 'mix' entries. */
  datatype Kernels = Kernels(symb: (Value, Value) -> real,
                             nsymb: (Value, Value) -> real,
                             mix: (Value, Value, Value, Value) -> real)

  /** The dataset attributes the kernel branches on (computed outside this model). */
  datatype DatasetAttrs = DatasetAttrs(nodeLabeled: bool, nodeAttrDim: nat,
                                       edgeLabeled: bool, edgeAttrDim: nat,
                                       directed: bool)

  type VKey = (nat, nat)
  type EKey = ((nat, nat), (nat, nat))
  type Path = seq<nat>

  // ===========================================================================
  // The vertex-kernel table (lines 226-255)

  /** Which node kernel the source binds to `kn`; `NodeNone` leaves `kn` unbound. */
  datatype NodeMode = NodeMix | NodeSymb | NodeNsymb | NodeNone

  function NodeModeOf(attrs: DatasetAttrs): NodeMode
  {
    if attrs.nodeLabeled then
      (if attrs.nodeAttrDim > 0 then NodeMix else NodeSymb)
    else
      (if attrs.nodeAttrDim > 0 then NodeNsymb else NodeNone)
  }

  /** The kernel between two nodes in each labeled mode. */
  function NodeKernel(mode: NodeMode, nk: Kernels): (Node, Node) -> real
    requires mode != NodeNone
  {
    match mode
    case NodeMix => (x: Node, y: Node) => nk.mix(Sym(x.sym), Sym(y.sym), Rows([x.attrs]), Rows([y.attrs]))
    case NodeSymb => (x: Node, y: Node) => nk.symb(Sym(x.sym), Sym(y.sym))
    case NodeNsymb => (x: Node, y: Node) => nk.nsymb(Rows([x.attrs]), Rows([y.attrs]))
  }

  /** Row a of the table: node a of the first graph against the nodes `ns2`. */
  function VertexRow(t: map<VKey, real>, a: nat, x: Node, ns2: seq<Node>,
                     kv: (Node, Node) -> real): map<VKey, real>
  {
    if ns2 == [] then t
    else VertexRow(t, a, x, ns2[..|ns2| - 1], kv)[(a, |ns2| - 1) := kv(x, ns2[|ns2| - 1])]
  }

  /** The table after inserting every pair of `ns1` x `ns2`, row by row. */
  function VertexRows(ns1: seq<Node>, ns2: seq<Node>, kv: (Node, Node) -> real): map<VKey, real>
  {
    if ns1 == [] then map[]
    else VertexRow(VertexRows(ns1[..|ns1| - 1], ns2, kv), |ns1| - 1, ns1[|ns1| - 1], ns2, kv)
  }

  /** `vk_dict` as the source builds it. */
  function VertexTable(g1: Graph, g2: Graph, attrs: DatasetAttrs, nk: Kernels): map<VKey, real>
  {
    var mode := NodeModeOf(attrs);
    if mode == NodeNone then map[] else VertexRows(g1.nodes, g2.nodes, NodeKernel(mode, nk))
  }

  lemma {:induction false} VertexRowSpec(t: map<VKey, real>, a: nat, x: Node, ns2: seq<Node>,
                                         kv: (Node, Node) -> real)
    ensures forall k: VKey :: k in VertexRow(t, a, x, ns2, kv) <==> k in t || (k.0 == a && k.1 < |ns2|)
    ensures forall k: VKey :: k in VertexRow(t, a, x, ns2, kv) ==>
              VertexRow(t, a, x, ns2, kv)[k] == if k.0 == a && k.1 < |ns2| then kv(x, ns2[k.1]) else t[k]
  {
    if ns2 != [] {
      VertexRowSpec(t, a, x, ns2[..|ns2| - 1], kv);
    }
  }

  /**
   * The vertex table has exactly one entry per pair of V1 x V2, holding the
   * node kernel of that pair.
   */
  lemma {:induction false} VertexRowsSpec(ns1: seq<Node>, ns2: seq<Node>, kv: (Node, Node) -> real)
    ensures forall k: VKey :: k in VertexRows(ns1, ns2, kv) <==> k.0 < |ns1| && k.1 < |ns2|
    ensures forall k: VKey :: k in VertexRows(ns1, ns2, kv) ==> VertexRows(ns1, ns2, kv)[k] == kv(ns1[k.0], ns2[k.1])
  {
    if ns1 != [] {
      var front := ns1[..|ns1| - 1];
      VertexRowsSpec(front, ns2, kv);
      VertexRowSpec(VertexRows(front, ns2, kv), |ns1| - 1, ns1[|ns1| - 1], ns2, kv);
    }
  }

  /**
   * `vk_dict` holds an entry for every (n1, n2) in V1 x V2 when nodes carry
   * labels or attributes, each the selected node kernel of the pair, and is
   * empty when nodes are unlabeled without attributes.
   */
  lemma VertexTableSpec(g1: Graph, g2: Graph, attrs: DatasetAttrs, nk: Kernels)
    ensures NodeModeOf(attrs) == NodeNone ==> VertexTable(g1, g2, attrs, nk) == map[]
    ensures NodeModeOf(attrs) != NodeNone ==>
              (forall k: VKey :: k in VertexTable(g1, g2, attrs, nk) <==> k.0 < |g1.nodes| && k.1 < |g2.nodes|) &&
              (forall k: VKey :: k in VertexTable(g1, g2, attrs, nk) ==>
                 VertexTable(g1, g2, attrs, nk)[k] == NodeKernel(NodeModeOf(attrs), nk)(g1.nodes[k.0], g2.nodes[k.1]))
  {
    if NodeModeOf(attrs) != NodeNone {
      VertexRowsSpec(g1.nodes, g2.nodes, NodeKernel(NodeModeOf(attrs), nk));
    }
  }

  /** The nested loops over V1 and V2 that store `kn(n1, n2)` under the key (n1, n2). */
  method FillVertexTable(ns1: seq<Node>, ns2: seq<Node>, kn: (Node, Node) -> real) returns (vk: map<VKey, real>)
    ensures vk == VertexRows(ns1, ns2, kn)
  {
    vk := map[];
    var i := 0;
    while i < |ns1|
      invariant i <= |ns1|
      invariant vk == VertexRows(ns1[..i], ns2, kn)
    {
      ghost var before := vk;
      var j := 0;
      while j < |ns2|
        invariant j <= |ns2|
        invariant vk == VertexRow(before, i, ns1[i], ns2[..j], kn)
      {
        vk := vk[(i, j) := kn(ns1[i], ns2[j])];
        assert ns2[..j + 1][..j] == ns2[..j];
        j := j + 1;
      }
      assert ns2[..j] == ns2;
      assert ns1[..i + 1][..i] == ns1[..i];
      i := i + 1;
    }
    assert ns1[..i] == ns1;
  }

  /** Lines 226-255: `kn` is chosen once, then called on every node pair. */
  method VertexKernels(g1: Graph, g2: Graph, attrs: DatasetAttrs, nk: Kernels) returns (vk: map<VKey, real>)
    ensures vk == VertexTable(g1, g2, attrs, nk)
  {
    vk := map[];
    var mode := NodeModeOf(attrs);
    if mode != NodeNone {
      vk := FillVertexTable(g1.nodes, g2.nodes, NodeKernel(mode, nk));
    }
  }

  // ===========================================================================
  // The edge-kernel table (lines 260-298)

  datatype EdgeMode = EdgeMix | EdgeSymb | EdgeNsymb | EdgeNone

  function EdgeModeOf(attrs: DatasetAttrs): EdgeMode
  {
    if attrs.edgeLabeled then
      (if attrs.edgeAttrDim > 0 then EdgeMix else EdgeSymb)
    else
      (if attrs.edgeAttrDim > 0 then EdgeNsymb else EdgeNone)
  }

  /**
   * The kernel the source applies to an edge pair. In the non-symbolic branch
   * (line 291) it calls `kn`, the node kernel bound at lines 229, 238 or 247,
   * and not the edge kernel `ke`: a 4-argument 'mix' node kernel called with
   * two arguments raises a TypeError, and an unbound `kn` a NameError.
   */
  function EdgeKernel(emode: EdgeMode, nmode: NodeMode, nk: Kernels, ek: Kernels): Result<(Edge, Edge) -> real>
    requires emode != EdgeNone
  {
    match emode
    case EdgeMix => Ok((e1: Edge, e2: Edge) => ek.mix(Sym(e1.sym), Sym(e2.sym), Rows([e1.attrs]), Rows([e2.attrs])))
    case EdgeSymb => Ok((e1: Edge, e2: Edge) => ek.symb(Sym(e1.sym), Sym(e2.sym)))
    case EdgeNsymb =>
      match nmode
      case NodeMix => Err(TypeError("kn takes 4 positional arguments but 2 were given"))
      case NodeSymb => Ok((e1: Edge, e2: Edge) => nk.symb(Rows([e1.attrs]), Rows([e2.attrs])))
      case NodeNsymb => Ok((e1: Edge, e2: Edge) => nk.nsymb(Rows([e1.attrs]), Rows([e2.attrs])))
      case NodeNone => Err(NameError("kn"))
  }

  /** The four keys an edge pair is stored under: each edge in either orientation. */
  function Orientations(e1: Edge, e2: Edge): seq<EKey>
  {
    [((e1.u, e1.v), (e2.u, e2.v)), ((e1.v, e1.u), (e2.u, e2.v)),
     ((e1.u, e1.v), (e2.v, e2.u)), ((e1.v, e1.u), (e2.v, e2.u))]
  }

  /** Lines 269-272: one value stored under the four orientation keys, in that order. */
  function Put4(t: map<EKey, real>, e1: Edge, e2: Edge, x: real): map<EKey, real>
  {
    var keys := Orientations(e1, e2);
    t[keys[0] := x][keys[1] := x][keys[2] := x][keys[3] := x]
  }

  function EdgeRow(t: map<EKey, real>, e1: Edge, es2: seq<Edge>, ke: (Edge, Edge) -> real): map<EKey, real>
  {
    if es2 == [] then t
    else Put4(EdgeRow(t, e1, es2[..|es2| - 1], ke), e1, es2[|es2| - 1], ke(e1, es2[|es2| - 1]))
  }

  function EdgeRows(es1: seq<Edge>, es2: seq<Edge>, ke: (Edge, Edge) -> real): map<EKey, real>
  {
    if es1 == [] then map[]
    else EdgeRow(EdgeRows(es1[..|es1| - 1], es2, ke), es1[|es1| - 1], es2, ke)
  }

  /** `ek_dict` as the source builds it, or the exception raised at the first edge pair. */
  function EdgeTable(g1: Graph, g2: Graph, attrs: DatasetAttrs, nk: Kernels, ek: Kernels): Result<map<EKey, real>>
  {
    var emode := EdgeModeOf(attrs);
    if emode == EdgeNone then Ok(map[])
    else
      match EdgeKernel(emode, NodeModeOf(attrs), nk, ek)
      case Err(e) => if g1.edges != [] && g2.edges != [] then Err(e) else Ok(map[])
      case Ok(ke) => Ok(EdgeRows(g1.edges, g2.edges, ke))
  }

  /** Two edges join the same two nodes, in either orientation. */
  predicate SameEnds(e: Edge, f: Edge)
  {
    (e.u == f.u && e.v == f.v) || (e.u == f.v && e.v == f.u)
  }

  /** No two edges of the list join the same two nodes (always so in a networkx `Graph`). */
  predicate Simple(es: seq<Edge>)
  {
    forall i, j :: 0 <= i < j < |es| ==> !SameEnds(es[i], es[j])
  }

  /** Two edge pairs sharing a key join the same nodes on both sides. */
  lemma OrientationsDetermine(e1: Edge, e2: Edge, f1: Edge, f2: Edge, k: EKey)
    requires k in Orientations(e1, e2) && k in Orientations(f1, f2)
    ensures SameEnds(e1, f1) && SameEnds(e2, f2)
  {
  }

  /** k is an orientation key of edge e1 paired with some edge of `es2`. */
  predicate RowKey(k: EKey, e1: Edge, es2: seq<Edge>)
  {
    exists j :: 0 <= j < |es2| && k in Orientations(e1, es2[j])
  }

  /** k is an orientation key of some pair of `es1` x `es2`. */
  predicate TableKey(k: EKey, es1: seq<Edge>, es2: seq<Edge>)
  {
    exists i, j :: 0 <= i < |es1| && 0 <= j < |es2| && k in Orientations(es1[i], es2[j])
  }

  lemma {:induction false} EdgeRowKeys(t: map<EKey, real>, e1: Edge, es2: seq<Edge>, ke: (Edge, Edge) -> real)
    ensures forall k :: k in EdgeRow(t, e1, es2, ke) <==> k in t || RowKey(k, e1, es2)
  {
    if es2 != [] {
      var front := es2[..|es2| - 1];
      EdgeRowKeys(t, e1, front, ke);
      forall k ensures RowKey(k, e1, es2) <==> RowKey(k, e1, front) || k in Orientations(e1, es2[|es2| - 1])
      {
        if j :| 0 <= j < |es2| && k in Orientations(e1, es2[j]) {
          if j < |front| {
            assert front[j] == es2[j];
          }
        }
        if j :| 0 <= j < |front| && k in Orientations(e1, front[j]) {
          assert es2[j] == front[j];
        }
      }
    }
  }

  /**
   * The keys of the edge table are exactly the four orientation keys of every
   * pair of an edge of the first graph and an edge of the second.
   */
  lemma {:induction false} EdgeRowsKeys(es1: seq<Edge>, es2: seq<Edge>, ke: (Edge, Edge) -> real)
    ensures forall k :: k in EdgeRows(es1, es2, ke) <==> TableKey(k, es1, es2)
  {
    if es1 != [] {
      var front := es1[..|es1| - 1];
      var last := es1[|es1| - 1];
      EdgeRowsKeys(front, es2, ke);
      EdgeRowKeys(EdgeRows(front, es2, ke), last, es2, ke);
      forall k ensures TableKey(k, es1, es2) <==> TableKey(k, front, es2) || RowKey(k, last, es2)
      {
        if i, j :| 0 <= i < |es1| && 0 <= j < |es2| && k in Orientations(es1[i], es2[j]) {
          if i < |front| {
            assert front[i] == es1[i];
          }
        }
        if i, j :| 0 <= i < |front| && 0 <= j < |es2| && k in Orientations(front[i], es2[j]) {
          assert es1[i] == front[i];
        }
      }
    }
  }

  /** An update under the four keys of a pair sets each of them and nothing else. */
  lemma Put4Spec(t: map<EKey, real>, e1: Edge, e2: Edge, x: real, k: EKey)
    ensures k in Orientations(e1, e2) ==> k in Put4(t, e1, e2, x) && Put4(t, e1, e2, x)[k] == x
    ensures k !in Orientations(e1, e2) ==> (k in Put4(t, e1, e2, x) <==> k in t) &&
                                            (k in t ==> Put4(t, e1, e2, x)[k] == t[k])
  {
  }

  /** A row whose edge pairs do not use key k leaves k as it was. */
  lemma {:induction false} EdgeRowUntouched(t: map<EKey, real>, e1: Edge, es2: seq<Edge>,
                                            ke: (Edge, Edge) -> real, k: EKey)
    requires !RowKey(k, e1, es2)
    ensures (k in EdgeRow(t, e1, es2, ke) <==> k in t) && (k in t ==> EdgeRow(t, e1, es2, ke)[k] == t[k])
  {
    if es2 != [] {
      var front := es2[..|es2| - 1];
      var last := es2[|es2| - 1];
      forall j | 0 <= j < |front| ensures k !in Orientations(e1, front[j]) {
        assert front[j] == es2[j];
      }
      EdgeRowUntouched(t, e1, front, ke, k);
      Put4Spec(EdgeRow(t, e1, front, ke), e1, last, ke(e1, last), k);
    }
  }

  /** Within a row, the pair with edge j keeps its value under its keys when no later edge joins the same nodes. */
  lemma {:induction false} EdgeRowValue(t: map<EKey, real>, e1: Edge, es2: seq<Edge>,
                                        ke: (Edge, Edge) -> real, j: nat, k: EKey)
    requires j < |es2| && k in Orientations(e1, es2[j])
    requires forall j' :: j < j' < |es2| ==> !SameEnds(es2[j], es2[j'])
    ensures k in EdgeRow(t, e1, es2, ke) && EdgeRow(t, e1, es2, ke)[k] == ke(e1, es2[j])
  {
    var front := es2[..|es2| - 1];
    var last := es2[|es2| - 1];
    if j == |es2| - 1 {
      Put4Spec(EdgeRow(t, e1, front, ke), e1, last, ke(e1, last), k);
    } else {
      assert front[j] == es2[j];
      EdgeRowValue(t, e1, front, ke, j, k);
      if k in Orientations(e1, last) {
        OrientationsDetermine(e1, es2[j], e1, last, k);
        assert false;
      }
      Put4Spec(EdgeRow(t, e1, front, ke), e1, last, ke(e1, last), k);
    }
  }

  lemma {:induction false} EdgeRowsValue(es1: seq<Edge>, es2: seq<Edge>, ke: (Edge, Edge) -> real,
                                         i: nat, j: nat, k: EKey)
    requires Simple(es1) && Simple(es2)
    requires i < |es1| && j < |es2| && k in Orientations(es1[i], es2[j])
    ensures k in EdgeRows(es1, es2, ke) && EdgeRows(es1, es2, ke)[k] == ke(es1[i], es2[j])
  {
    var front := es1[..|es1| - 1];
    var last := es1[|es1| - 1];
    if i == |es1| - 1 {
      EdgeRowValue(EdgeRows(front, es2, ke), last, es2, ke, j, k);
    } else {
      assert front[i] == es1[i];
      assert Simple(front) by {
        forall a, b | 0 <= a < b < |front| ensures !SameEnds(front[a], front[b]) {
          assert front[a] == es1[a] && front[b] == es1[b];
        }
      }
      EdgeRowsValue(front, es2, ke, i, j, k);
      assert !RowKey(k, last, es2) by {
        if j' :| 0 <= j' < |es2| && k in Orientations(last, es2[j']) {
          OrientationsDetermine(es1[i], es2[j], last, es2[j'], k);
          assert false;
        }
      }
      EdgeRowUntouched(EdgeRows(front, es2, ke), last, es2, ke, k);
    }
  }

  /**
   * Lines 265-295: when neither graph has two edges joining the same nodes,
   * every edge pair's kernel value is found under all four of its
   * orientation keys. (In a directed graph holding both (a, b) and (b, a),
   * the later edge's value overwrites the earlier one's.)
   */
  lemma EdgeTableOrientations(g1: Graph, g2: Graph, attrs: DatasetAttrs, nk: Kernels, ek: Kernels, i: nat, j: nat)
    requires EdgeModeOf(attrs) != EdgeNone && EdgeKernel(EdgeModeOf(attrs), NodeModeOf(attrs), nk, ek).Ok?
    requires Simple(g1.edges) && Simple(g2.edges)
    requires i < |g1.edges| && j < |g2.edges|
    ensures EdgeTable(g1, g2, attrs, nk, ek).Ok?
    ensures forall k :: k in Orientations(g1.edges[i], g2.edges[j]) ==>
              k in EdgeTable(g1, g2, attrs, nk, ek).value &&
              EdgeTable(g1, g2, attrs, nk, ek).value[k] ==
                EdgeKernel(EdgeModeOf(attrs), NodeModeOf(attrs), nk, ek).value(g1.edges[i], g2.edges[j])
  {
    var ke := EdgeKernel(EdgeModeOf(attrs), NodeModeOf(attrs), nk, ek).value;
    forall k | k in Orientations(g1.edges[i], g2.edges[j])
      ensures k in EdgeRows(g1.edges, g2.edges, ke) && EdgeRows(g1.edges, g2.edges, ke)[k] == ke(g1.edges[i], g2.edges[j])
    {
      EdgeRowsValue(g1.edges, g2.edges, ke, i, j, k);
    }
  }

  /**
   * Line 291: in the edge non-symbolic branch the caller's edge kernels play
   * no part, and the branch fails exactly when the node kernel bound to `kn`
   * is the 4-argument 'mix' one or when no node kernel was bound.
   */
  lemma EdgeNsymbUsesNodeKernel(nmode: NodeMode, nk: Kernels, ek: Kernels, ek': Kernels)
    ensures EdgeKernel(EdgeNsymb, nmode, nk, ek) == EdgeKernel(EdgeNsymb, nmode, nk, ek')
    ensures EdgeKernel(EdgeNsymb, nmode, nk, ek).Err? <==> nmode == NodeMix || nmode == NodeNone
  {
  }

  /** Lines 260-298: `ke` (or `kn`) is applied to every edge pair and stored under four keys. */
  method EdgeKernels(g1: Graph, g2: Graph, attrs: DatasetAttrs, nk: Kernels, ek: Kernels)
    returns (r: Result<map<EKey, real>>)
    ensures r == EdgeTable(g1, g2, attrs, nk, ek)
  {
    var emode := EdgeModeOf(attrs);
    if emode == EdgeNone {
      return Ok(map[]);
    }
    var ke := EdgeKernel(emode, NodeModeOf(attrs), nk, ek);
    var t: map<EKey, real> := map[];
    var i := 0;
    while i < |g1.edges|
      invariant i <= |g1.edges|
      invariant ke.Ok? ==> t == EdgeRows(g1.edges[..i], g2.edges, ke.value)
      invariant ke.Err? ==> t == map[] && (i == 0 || g2.edges == [])
    {
      ghost var before := t;
      var j := 0;
      while j < |g2.edges|
        invariant j <= |g2.edges|
        invariant ke.Ok? ==> t == EdgeRow(before, g1.edges[i], g2.edges[..j], ke.value)
        invariant ke.Err? ==> j == 0 && t == before
      {
        var e1, e2 := g1.edges[i], g2.edges[j];
        match ke {
          case Err(e) =>
            return Err(e);
          case Ok(f) =>
            t := Put4(t, e1, e2, f(e1, e2));
        }
        assert g2.edges[..j + 1][..j] == g2.edges[..j];
        j := j + 1;
      }
      assert g2.edges[..j] == g2.edges;
      assert g1.edges[..i + 1][..i] == g1.edges[..i];
      i := i + 1;
    }
    assert g1.edges[..i] == g1.edges;
    r := Ok(t);
  }

  // ===========================================================================
  // Summing over path pairs (lines 300-343)

  /**
   * The branch the sum takes (lines 301, 302, 325): it tests whether each
   * table is non-empty, so a labeled dataset whose graph has no node (or no
   * edge) falls into the unlabeled branch.
   */
  datatype PathMode = Both | VertexOnly | EdgeOnly | Neither

  function PathModeOf(vk: map<VKey, real>, ek: map<EKey, real>): PathMode
  {
    if vk != map[] then (if ek != map[] then Both else VertexOnly)
    else (if ek != map[] then EdgeOnly else Neither)
  }

  function VLookup(vk: map<VKey, real>, a: nat, b: nat): Result<real>
  {
    if (a, b) in vk then Ok(vk[(a, b)]) else Err(KeyError("vk_dict"))
  }

  function ELookup(ek: map<EKey, real>, k: EKey): Result<real>
  {
    if k in ek then Ok(ek[k]) else Err(KeyError("ek_dict"))
  }

  /** The key of the aligned segments ending at position idx of two paths. */
  function Segment(p1: Path, p2: Path, idx: nat): EKey
    requires 1 <= idx < |p1| && idx < |p2|
  {
    ((p1[idx - 1], p1[idx]), (p2[idx - 1], p2[idx]))
  }

  /**
   * What position idx (1 <= idx < |p1|) multiplies into the path product:
   * vk at the aligned nodes times ek on the segment ending there (lines
   * 308-310), vk alone (line 320), or ek alone (lines 333-334, whose loop
   * index is idx - 1). The vk lookup is evaluated before the ek lookup.
   */
  function Factor(mode: PathMode, vk: map<VKey, real>, ek: map<EKey, real>, p1: Path, p2: Path, idx: nat): Result<real>
    requires 1 <= idx < |p1| == |p2|
  {
    match mode
    case Both =>
      (match VLookup(vk, p1[idx], p2[idx])
       case Err(e) => Err(e)
       case Ok(x) =>
         match ELookup(ek, Segment(p1, p2, idx))
         case Err(e) => Err(e)
         case Ok(y) => Ok(x * y))
    case VertexOnly => VLookup(vk, p1[idx], p2[idx])
    case EdgeOnly => ELookup(ek, Segment(p1, p2, idx))
    case Neither => Ok(1.0)
  }

  /** The factors of positions 1..|p1|-1, in loop order (each evaluated only if the loop gets there). */
  function Factors(mode: PathMode, vk: map<VKey, real>, ek: map<EKey, real>, p1: Path, p2: Path): (fs: seq<Result<real>>)
    requires 1 <= |p1| == |p2|
    ensures |fs| == |p1| - 1
  {
    seq(|p1| - 1, k requires 0 <= k < |p1| - 1 => Factor(mode, vk, ek, p1, p2, k + 1))
  }

  /** The product loop as written: it stops as soon as the partial product is 0. */
  function EarlyProduct(fs: seq<Result<real>>, i: nat, acc: real): Result<real>
    requires i <= |fs|
    decreases |fs| - i
  {
    if i == |fs| then Ok(acc)
    else
      match fs[i]
      case Err(e) => Err(e)
      case Ok(x) =>
        var kpath := acc * x;
        if kpath == 0.0 then Ok(kpath) else EarlyProduct(fs, i + 1, kpath)
  }

  /** One iteration of the product loop: `next` is the new partial product. */
  lemma EarlyStep(fs: seq<Result<real>>, i: nat, acc: real, next: real)
    requires i < |fs| && fs[i].Ok? && next == acc * fs[i].value
    ensures next == 0.0 ==> EarlyProduct(fs, i, acc) == Ok(next)
    ensures next != 0.0 ==> EarlyProduct(fs, i, acc) == EarlyProduct(fs, i + 1, next)
  {
  }

  /** `acc` times the factors from i on, multiplied left to right, with every factor evaluated. */
  function FullProduct(fs: seq<Result<real>>, i: nat, acc: real): Result<real>
    requires i <= |fs|
    decreases |fs| - i
  {
    if i == |fs| then Ok(acc)
    else
      match fs[i]
      case Err(e) => Err(e)
      case Ok(x) => FullProduct(fs, i + 1, acc * x)
  }

  /** A product that reaches 0 stays 0. */
  lemma {:induction false} FullProductZero(fs: seq<Result<real>>, i: nat)
    requires i <= |fs| && FullProduct(fs, i, 0.0).Ok?
    ensures FullProduct(fs, i, 0.0) == Ok(0.0)
    decreases |fs| - i
  {
    if i < |fs| {
      assert 0.0 * fs[i].value == 0.0;
      FullProductZero(fs, i + 1);
    }
  }

  /**
   * Breaking out of the loop when the partial product is 0 gives the full
   * product whenever all its lookups succeed.
   */
  lemma {:induction false} EarlyBreak(fs: seq<Result<real>>, i: nat, acc: real)
    requires i <= |fs| && FullProduct(fs, i, acc).Ok?
    ensures EarlyProduct(fs, i, acc) == FullProduct(fs, i, acc)
    decreases |fs| - i
  {
    if i < |fs| {
      var kpath := acc * fs[i].value;
      if kpath == 0.0 {
        FullProductZero(fs, i + 1);
      } else {
        EarlyBreak(fs, i + 1, kpath);
      }
    }
  }

  /** What one pair of equal-length paths adds to the kernel (lines 305-313, 317-323, 328-337, 341). */
  function PathPairKernel(mode: PathMode, vk: map<VKey, real>, ek: map<EKey, real>, p1: Path, p2: Path): Result<real>
    requires |p1| == |p2|
  {
    match mode
    case Neither => Ok(1.0)
    case EdgeOnly => if |p1| == 0 then Ok(1.0) else EarlyProduct(Factors(mode, vk, ek, p1, p2), 0, 1.0)
    case Both | VertexOnly =>
      if |p1| == 0 then Err(IndexError("p1[0]"))
      else
        match VLookup(vk, p1[0], p2[0])
        case Err(e) => Err(e)
        case Ok(k0) => if k0 == 0.0 then Ok(0.0) else EarlyProduct(Factors(mode, vk, ek, p1, p2), 0, k0)
  }

  /**
   * With labeled nodes, a path pair whose lookups all succeed contributes vk
   * of its first aligned nodes times the factors of every later position.
   */
  lemma NodeLabeledPathPair(mode: PathMode, vk: map<VKey, real>, ek: map<EKey, real>, p1: Path, p2: Path)
    requires mode == Both || mode == VertexOnly
    requires 1 <= |p1| == |p2|
    requires (p1[0], p2[0]) in vk && FullProduct(Factors(mode, vk, ek, p1, p2), 0, vk[(p1[0], p2[0])]).Ok?
    ensures PathPairKernel(mode, vk, ek, p1, p2) == FullProduct(Factors(mode, vk, ek, p1, p2), 0, vk[(p1[0], p2[0])])
  {
    var fs := Factors(mode, vk, ek, p1, p2);
    if vk[(p1[0], p2[0])] == 0.0 {
      FullProductZero(fs, 0);
    } else {
      EarlyBreak(fs, 0, vk[(p1[0], p2[0])]);
    }
  }

  /**
   * With only edges labeled, a path pair contributes the product of ek over
   * its aligned segments; two single-node paths contribute 1.
   */
  lemma EdgeLabeledPathPair(vk: map<VKey, real>, ek: map<EKey, real>, p1: Path, p2: Path)
    requires 1 <= |p1| == |p2|
    ensures |p1| == 1 ==> PathPairKernel(EdgeOnly, vk, ek, p1, p2) == Ok(1.0)
    ensures FullProduct(Factors(EdgeOnly, vk, ek, p1, p2), 0, 1.0).Ok? ==>
              PathPairKernel(EdgeOnly, vk, ek, p1, p2) == FullProduct(Factors(EdgeOnly, vk, ek, p1, p2), 0, 1.0)
  {
    if FullProduct(Factors(EdgeOnly, vk, ek, p1, p2), 0, 1.0).Ok? {
      EarlyBreak(Factors(EdgeOnly, vk, ek, p1, p2), 0, 1.0);
    }
  }

  /** The loop of lines 307-312 (and 319-322, 332-336), starting from `acc`. */
  method PathProduct(mode: PathMode, vk: map<VKey, real>, ek: map<EKey, real>, p1: Path, p2: Path, acc: real)
    returns (r: Result<real>)
    requires 1 <= |p1| == |p2|
    ensures r == EarlyProduct(Factors(mode, vk, ek, p1, p2), 0, acc)
  {
    ghost var fs := Factors(mode, vk, ek, p1, p2);
    var kpath := acc;
    var idx := 1;
    while idx < |p1|
      invariant 1 <= idx <= |p1|
      invariant EarlyProduct(fs, idx - 1, kpath) == EarlyProduct(fs, 0, acc)
    {
      var f := Factor(mode, vk, ek, p1, p2, idx);
      assert f == fs[idx - 1];
      if f.Err? {
        return Err(f.error);
      }
      var next := kpath * f.value;
      EarlyStep(fs, idx - 1, kpath, next);
      kpath := next;
      if kpath == 0.0 {
        break;
      }
      idx := idx + 1;
    }
    r := Ok(kpath);
  }

  /** The body of the sum for one pair of equal-length paths. */
  method PairOfPaths(mode: PathMode, vk: map<VKey, real>, ek: map<EKey, real>, p1: Path, p2: Path)
    returns (r: Result<real>)
    requires |p1| == |p2|
    ensures r == PathPairKernel(mode, vk, ek, p1, p2)
  {
    match mode {
      case Neither =>
        r := Ok(1.0);
      case EdgeOnly =>
        if |p1| == 0 {
          r := Ok(1.0);
        } else {
          r := PathProduct(mode, vk, ek, p1, p2, 1.0);
        }
      case Both | VertexOnly =>
        if |p1| == 0 {
          return Err(IndexError("p1[0]"));
        }
        var k0 := VLookup(vk, p1[0], p2[0]);
        if k0.Err? {
          return Err(k0.error);
        }
        if k0.value == 0.0 {
          r := Ok(0.0);
        } else {
          r := PathProduct(mode, vk, ek, p1, p2, k0.value);
        }
    }
  }

  /** `acc` plus the contributions of `p1` paired with each path of `ps2` in turn. */
  function RowSum(mode: PathMode, vk: map<VKey, real>, ek: map<EKey, real>, acc: real, p1: Path, ps2: seq<Path>): Result<real>
  {
    if ps2 == [] then Ok(acc)
    else
      match RowSum(mode, vk, ek, acc, p1, ps2[..|ps2| - 1])
      case Err(e) => Err(e)
      case Ok(s) =>
        var p2 := ps2[|ps2| - 1];
        if |p1| != |p2| then Ok(s)
        else
          match PathPairKernel(mode, vk, ek, p1, p2)
          case Err(e) => Err(e)
          case Ok(c) => Ok(s + c)
  }

  /** The sum over `product(spl1, spl2)` in its order; the first exception ends it. */
  function PathSum(mode: PathMode, vk: map<VKey, real>, ek: map<EKey, real>, ps1: seq<Path>, ps2: seq<Path>): Result<real>
  {
    if ps1 == [] then Ok(0.0)
    else
      match PathSum(mode, vk, ek, ps1[..|ps1| - 1], ps2)
      case Err(e) => Err(e)
      case Ok(s) => RowSum(mode, vk, ek, s, ps1[|ps1| - 1], ps2)
  }

  /** Lines 300-343: the mean over all path pairs, with a ZeroDivisionError when a path list is empty. */
  function PathsKernel(vk: map<VKey, real>, ek: map<EKey, real>, spl1: seq<Path>, spl2: seq<Path>): Result<real>
  {
    match PathSum(PathModeOf(vk, ek), vk, ek, spl1, spl2)
    case Err(e) => Err(e)
    case Ok(s) => if |spl1| * |spl2| == 0 then Err(ZeroDivisionError) else Ok(s / ((|spl1| * |spl2|) as real))
  }

  lemma {:induction false} RowSumErr(mode: PathMode, vk: map<VKey, real>, ek: map<EKey, real>, acc: real,
                                     p1: Path, ps2: seq<Path>, j: nat)
    requires j <= |ps2| && RowSum(mode, vk, ek, acc, p1, ps2[..j]).Err?
    ensures RowSum(mode, vk, ek, acc, p1, ps2) == RowSum(mode, vk, ek, acc, p1, ps2[..j])
  {
    if j < |ps2| {
      var front := ps2[..|ps2| - 1];
      assert front[..j] == ps2[..j];
      RowSumErr(mode, vk, ek, acc, p1, front, j);
    } else {
      assert ps2[..j] == ps2;
    }
  }

  lemma {:induction false} PathSumErr(mode: PathMode, vk: map<VKey, real>, ek: map<EKey, real>,
                                      ps1: seq<Path>, ps2: seq<Path>, i: nat)
    requires i <= |ps1| && PathSum(mode, vk, ek, ps1[..i], ps2).Err?
    ensures PathSum(mode, vk, ek, ps1, ps2) == PathSum(mode, vk, ek, ps1[..i], ps2)
  {
    if i < |ps1| {
      var front := ps1[..|ps1| - 1];
      assert front[..i] == ps1[..i];
      PathSumErr(mode, vk, ek, front, ps2, i);
    } else {
      assert ps1[..i] == ps1;
    }
  }

  /** The inner loop of lines 328-341: one path of G1 against every path of G2. */
  method RowKernelSum(mode: PathMode, vk: map<VKey, real>, ek: map<EKey, real>, acc: real, p1: Path, spl2: seq<Path>)
    returns (r: Result<real>)
    ensures r == RowSum(mode, vk, ek, acc, p1, spl2)
  {
    var kernel := acc;
    var j := 0;
    while j < |spl2|
      invariant j <= |spl2|
      invariant RowSum(mode, vk, ek, acc, p1, spl2[..j]) == Ok(kernel)
    {
      var p2 := spl2[j];
      assert spl2[..j + 1][..j] == spl2[..j];
      if |p1| == |p2| {
        var c := PairOfPaths(mode, vk, ek, p1, p2);
        if c.Err? {
          RowSumErr(mode, vk, ek, acc, p1, spl2, j + 1);
          return Err(c.error);
        }
        kernel := kernel + c.value;
      }
      j := j + 1;
    }
    assert spl2[..j] == spl2;
    r := Ok(kernel);
  }

  /** Lines 300-343 over two path lists and the two tables. */
  method PathsKernelSum(spl1: seq<Path>, spl2: seq<Path>, vk: map<VKey, real>, ek: map<EKey, real>)
    returns (r: Result<real>)
    ensures r == PathsKernel(vk, ek, spl1, spl2)
  {
    var mode := PathModeOf(vk, ek);
    var kernel := 0.0;
    var i := 0;
    while i < |spl1|
      invariant i <= |spl1|
      invariant PathSum(mode, vk, ek, spl1[..i], spl2) == Ok(kernel)
    {
      assert spl1[..i + 1][..i] == spl1[..i];
      var row := RowKernelSum(mode, vk, ek, kernel, spl1[i], spl2);
      if row.Err? {
        PathSumErr(mode, vk, ek, spl1, spl2, i + 1);
        return Err(row.error);
      }
      kernel := row.value;
      i := i + 1;
    }
    assert spl1[..i] == spl1;
    if |spl1| * |spl2| == 0 {
      return Err(ZeroDivisionError);
    }
    r := Ok(kernel / ((|spl1| * |spl2|) as real));
  }

  /** The number of paths of `ps2` as long as `p1`. */
  function SameLengthCount(p1: Path, ps2: seq<Path>): (c: nat)
    ensures c <= |ps2|
  {
    if ps2 == [] then 0
    else SameLengthCount(p1, ps2[..|ps2| - 1]) + (if |p1| == |ps2[|ps2| - 1]| then 1 else 0)
  }

  /** The number of pairs of `product(ps1, ps2)` whose two paths have equal length. */
  function EqualLengthPairs(ps1: seq<Path>, ps2: seq<Path>): (c: nat)
    ensures c <= |ps1| * |ps2|
  {
    if ps1 == [] then 0
    else
      var c := EqualLengthPairs(ps1[..|ps1| - 1], ps2) + SameLengthCount(ps1[|ps1| - 1], ps2);
      assert |ps1| * |ps2| == (|ps1| - 1) * |ps2| + |ps2|;
      c
  }

  lemma {:induction false} UnlabeledRowSum(vk: map<VKey, real>, ek: map<EKey, real>, acc: real, p1: Path, ps2: seq<Path>)
    ensures RowSum(Neither, vk, ek, acc, p1, ps2) == Ok(acc + SameLengthCount(p1, ps2) as real)
  {
    if ps2 != [] {
      UnlabeledRowSum(vk, ek, acc, p1, ps2[..|ps2| - 1]);
    }
  }

  lemma {:induction false} UnlabeledPathSum(vk: map<VKey, real>, ek: map<EKey, real>, ps1: seq<Path>, ps2: seq<Path>)
    ensures PathSum(Neither, vk, ek, ps1, ps2) == Ok(EqualLengthPairs(ps1, ps2) as real)
  {
    if ps1 != [] {
      var front := ps1[..|ps1| - 1];
      UnlabeledPathSum(vk, ek, front, ps2);
      UnlabeledRowSum(vk, ek, EqualLengthPairs(front, ps2) as real, ps1[|ps1| - 1], ps2);
    }
  }

  lemma UnitFraction(c: nat, n: nat)
    requires c <= n && n > 0
    ensures 0.0 <= (c as real) / (n as real) <= 1.0
  {
  }

  /**
   * With nodes and edges both unlabeled (both tables empty) the kernel is the
   * fraction of path pairs that have equal length, so it lies in [0, 1].
   */
  lemma UnlabeledKernel(vk: map<VKey, real>, ek: map<EKey, real>, spl1: seq<Path>, spl2: seq<Path>)
    requires vk == map[] && ek == map[]
    ensures spl1 == [] || spl2 == [] ==> PathsKernel(vk, ek, spl1, spl2) == Err(ZeroDivisionError)
    ensures spl1 != [] && spl2 != [] ==>
              PathsKernel(vk, ek, spl1, spl2) ==
                Ok((EqualLengthPairs(spl1, spl2) as real) / ((|spl1| * |spl2|) as real)) &&
              0.0 <= PathsKernel(vk, ek, spl1, spl2).value <= 1.0
  {
    UnlabeledPathSum(vk, ek, spl1, spl2);
    var pairs := |spl1| * |spl2|;
    assert pairs == 0 <==> spl1 == [] || spl2 == [];
    if pairs != 0 {
      UnitFraction(EqualLengthPairs(spl1, spl2), pairs);
    }
  }

  // ===========================================================================
  // Path lists (lines 382-412)

  /** `list(nx.all_shortest_paths(G, a, b))` for a graph G, or [] when b is unreachable from a. */
  type PathOracle = (Graph, nat, nat) -> seq<Path>

  function Reversed(p: Path): (r: Path)
    ensures |r| == |p|
  {
    seq(|p|, k requires 0 <= k < |p| => p[|p| - 1 - k])
  }

  function ReversedAll(ps: seq<Path>): (rs: seq<Path>)
    ensures |rs| == |ps|
  {
    seq(|ps|, k requires 0 <= k < |ps| => Reversed(ps[k]))
  }

  /** Lines 402-406: the paths found for one pair, then their reversals when the graph is undirected. */
  function PairPaths(found: seq<Path>, directed: bool): seq<Path>
  {
    if directed then found else found + ReversedAll(found)
  }

  /** The paths of the pairs (a, c) with a < c < b, in `combinations` order. */
  function RowPaths(g: Graph, oracle: PathOracle, directed: bool, a: nat, b: nat): seq<Path>
    decreases b
  {
    if b <= a + 1 then []
    else RowPaths(g, oracle, directed, a, b - 1) + PairPaths(oracle(g, a, b - 1), directed)
  }

  /** The paths of all pairs whose first node is below a. */
  function PairsBefore(g: Graph, oracle: PathOracle, directed: bool, a: nat): seq<Path>
  {
    if a == 0 then []
    else PairsBefore(g, oracle, directed, a - 1) + RowPaths(g, oracle, directed, a - 1, |g.nodes|)
  }

  /** Line 411: `[n]` for every node n. */
  function SingleNodePaths(n: nat): (r: seq<Path>)
    ensures |r| == n
  {
    seq(n, v requires 0 <= v < n => [v])
  }

  /** The list `get_shortest_paths` returns. */
  function ShortestPaths(g: Graph, oracle: PathOracle, directed: bool): seq<Path>
  {
    PairsBefore(g, oracle, directed, |g.nodes|) + SingleNodePaths(|g.nodes|)
  }

  /** p is one of the paths recorded for the pair (a, c). */
  predicate FoundFor(g: Graph, oracle: PathOracle, directed: bool, a: nat, c: nat, p: Path)
  {
    p in PairPaths(oracle(g, a, c), directed)
  }

  lemma PairPathsMembers(found: seq<Path>, directed: bool, p: Path)
    ensures p in found ==> p in PairPaths(found, directed)
    ensures p in found && !directed ==> Reversed(p) in PairPaths(found, directed)
  {
    if p in found && !directed {
      var k :| 0 <= k < |found| && found[k] == p;
      assert ReversedAll(found)[k] == Reversed(p);
    }
  }

  lemma {:induction false} RowPathsMembers(g: Graph, oracle: PathOracle, directed: bool, a: nat, b: nat, p: Path)
    ensures p in RowPaths(g, oracle, directed, a, b) <==> exists c :: a < c < b && FoundFor(g, oracle, directed, a, c, p)
    decreases b
  {
    if b > a + 1 {
      RowPathsMembers(g, oracle, directed, a, b - 1, p);
      if FoundFor(g, oracle, directed, a, b - 1, p) {
        assert a < b - 1 < b;
      }
      if c :| a < c < b && FoundFor(g, oracle, directed, a, c, p) {
        if c < b - 1 {
          assert a < c < b - 1;
        }
      }
    }
  }

  lemma {:induction false} PairsBeforeMembers(g: Graph, oracle: PathOracle, directed: bool, a: nat, p: Path)
    ensures p in PairsBefore(g, oracle, directed, a) <==>
            exists a', c :: 0 <= a' < a && a' < c < |g.nodes| && FoundFor(g, oracle, directed, a', c, p)
  {
    if a > 0 {
      PairsBeforeMembers(g, oracle, directed, a - 1, p);
      RowPathsMembers(g, oracle, directed, a - 1, |g.nodes|, p);
    }
  }

  /**
   * Lines 400-409: every path found for a pair of distinct nodes is in the
   * list, and so is its reverse when the graph is undirected; apart from the
   * single-node paths, nothing else is.
   */
  lemma ShortestPathsContents(g: Graph, oracle: PathOracle, directed: bool)
    ensures forall a, c, p :: 0 <= a < c < |g.nodes| && p in oracle(g, a, c) ==>
              p in ShortestPaths(g, oracle, directed) &&
              (!directed ==> Reversed(p) in ShortestPaths(g, oracle, directed))
    ensures forall p :: p in ShortestPaths(g, oracle, directed) ==>
              (|p| == 1 && p[0] < |g.nodes|) ||
              exists a, c :: 0 <= a < c < |g.nodes| && FoundFor(g, oracle, directed, a, c, p)
  {
    var n := |g.nodes|;
    var sp := ShortestPaths(g, oracle, directed);
    forall a, c, p | 0 <= a < c < n && p in oracle(g, a, c)
      ensures p in sp && (!directed ==> Reversed(p) in sp)
    {
      PairPathsMembers(oracle(g, a, c), directed, p);
      assert FoundFor(g, oracle, directed, a, c, p);
      PairsBeforeMembers(g, oracle, directed, n, p);
      if !directed {
        assert FoundFor(g, oracle, directed, a, c, Reversed(p));
        PairsBeforeMembers(g, oracle, directed, n, Reversed(p));
      }
    }
    forall p | p in sp
      ensures (|p| == 1 && p[0] < n) || exists a, c :: 0 <= a < c < n && FoundFor(g, oracle, directed, a, c, p)
    {
      PairsBeforeMembers(g, oracle, directed, n, p);
    }
  }

  /**
   * Line 411: the list ends with the n single-node paths [0], ..., [n-1], so
   * it is at least as long as the graph has nodes.
   */
  lemma ShortestPathsEndWithNodes(g: Graph, oracle: PathOracle, directed: bool)
    ensures |ShortestPaths(g, oracle, directed)| >= |g.nodes|
    ensures forall v :: 0 <= v < |g.nodes| ==>
              ShortestPaths(g, oracle, directed)[|ShortestPaths(g, oracle, directed)| - |g.nodes| + v] == [v]
  {
  }

  /** `get_shortest_paths`: grows `sp` pair by pair, then appends the single-node paths. */
  method GetShortestPaths(g: Graph, oracle: PathOracle, directed: bool) returns (sp: seq<Path>)
    ensures sp == ShortestPaths(g, oracle, directed)
  {
    var n := |g.nodes|;
    sp := [];
    var a := 0;
    while a < n
      invariant a <= n
      invariant sp == PairsBefore(g, oracle, directed, a)
    {
      ghost var before := sp;
      var b := a + 1;
      while b < n
        invariant a + 1 <= b <= n
        invariant sp == before + RowPaths(g, oracle, directed, a, b)
      {
        var spltemp := oracle(g, a, b);
        sp := sp + spltemp;
        if !directed {
          sp := sp + ReversedAll(spltemp);
        }
        assert sp == before + (RowPaths(g, oracle, directed, a, b) + PairPaths(spltemp, directed));
        b := b + 1;
      }
      a := a + 1;
    }
    sp := sp + SingleNodePaths(n);
  }

  // ===========================================================================
  // The kernel of two graphs (lines 213-379) and the kernel matrix (lines 100-165)

  /**
   * What the worker returns for two graphs and their path lists: the edge
   * table's exception, or the path kernel of the two tables. A value above 1
   * is only reported (line 377), never altered.
   */
  function StructuralSpPair(g1: Graph, g2: Graph, spl1: seq<Path>, spl2: seq<Path>,
                            attrs: DatasetAttrs, nk: Kernels, ek: Kernels): Result<real>
  {
    match EdgeTable(g1, g2, attrs, nk, ek)
    case Err(e) => Err(e)
    case Ok(et) => PathsKernel(VertexTable(g1, g2, attrs, nk), et, spl1, spl2)
  }

  /** `structuralspkernel_do`: the two tables, then the mean over path pairs. */
  method StructuralSpDo(g1: Graph, g2: Graph, spl1: seq<Path>, spl2: seq<Path>,
                        attrs: DatasetAttrs, nk: Kernels, ek: Kernels) returns (r: Result<real>)
    ensures r == StructuralSpPair(g1, g2, spl1, spl2, attrs, nk, ek)
  {
    var vk := VertexKernels(g1, g2, attrs, nk);
    var et := EdgeKernels(g1, g2, attrs, nk, ek);
    if et.Err? {
      return Err(et.error);
    }
    r := PathsKernelSum(spl1, spl2, vk, et.value);
  }

  /**
   * Lines 105-108 and 156-159: `int(len / n_jobs) + 1` below `1000 * n_jobs`,
   * 1000 otherwise. With the default `n_jobs=None` the product `1000 * None`
   * raises a TypeError. Whatever the length, a chunk holds 1 to 1000 items.
   */
  function ChunkSize(len: nat, nJobs: Option<nat>): (r: Result<nat>)
    requires nJobs.Some? ==> nJobs.value >= 1
    ensures r.Err? <==> nJobs.None?
    ensures r.Ok? ==> 1 <= r.value <= 1000
  {
    match nJobs
    case None => Err(TypeError("1000 * None"))
    case Some(jobs) =>
      if len < 1000 * jobs then
        QuotientBelow(len, jobs, 1000);
        Ok(len / jobs + 1)
      else Ok(1000)
  }

  lemma QuotientBelow(len: nat, jobs: nat, m: nat)
    requires jobs >= 1 && len < m * jobs
    ensures len / jobs < m
  {
    var q := len / jobs;
    assert (q - m) * jobs == q * jobs - m * jobs;
  }

  /** The pairs (a, b) with i <= a <= b < n, in `combinations_with_replacement` order. */
  function PairsFrom(i: nat, n: nat): seq<(nat, nat)>
    decreases n - i
  {
    if i >= n then [] else seq(n - i, k requires 0 <= k < n - i => (i, i + k)) + PairsFrom(i + 1, n)
  }

  /** Line 155: `len_itr`. */
  function PairCount(n: nat): nat
  {
    n * (n + 1) / 2
  }

  lemma {:induction false} PairsFromSpec(i: nat, n: nat)
    requires i <= n
    ensures |PairsFrom(i, n)| == PairCount(n - i)
    ensures forall a: nat, b: nat :: (a, b) in PairsFrom(i, n) <==> i <= a <= b < n
    decreases n - i
  {
    if i < n {
      PairsFromSpec(i + 1, n);
      var m := n - i;
      assert m * (m + 1) == (m - 1) * m + 2 * m;
      var row := seq(n - i, k requires 0 <= k < n - i => (i, i + k));
      forall a: nat, b: nat ensures (a, b) in row <==> a == i && i <= b < n {
        if a == i && i <= b < n {
          assert row[b - i] == (a, b);
        }
      }
    }
  }

  /**
   * Line 155: `len_itr` is the number of pairs `combinations_with_replacement`
   * yields, the pairs (i, j) with i <= j.
   */
  lemma PairCountIsPairs(n: nat)
    ensures |PairsFrom(0, n)| == PairCount(n)
    ensures forall a: nat, b: nat :: (a, b) in PairsFrom(0, n) <==> a <= b < n
  {
    PairsFromSpec(0, n);
  }

  /** The kernel of graphs a and b of the list, from their shortest-path lists. */
  function GraphPairKernel(gs: seq<Graph>, oracle: PathOracle, attrs: DatasetAttrs, nk: Kernels, ek: Kernels,
                           a: nat, b: nat): Result<real>
    requires a < |gs| && b < |gs|
  {
    StructuralSpPair(gs[a], gs[b], ShortestPaths(gs[a], oracle, attrs.directed),
                     ShortestPaths(gs[b], oracle, attrs.directed), attrs, nk, ek)
  }

  /** The pair (a, b), taken with its smaller index first, comes before row i, column j. */
  predicate Visited(a: int, b: int, i: int, j: int)
  {
    var lo := if a <= b then a else b;
    var hi := if a <= b then b else a;
    lo < i || (lo == i && hi < j)
  }

  /**
   * One row of the kernel matrix: the pairs (i, j) with j >= i, each value
   * written at both (i, j) and (j, i); the first exception ends the row.
   */
  method FillRow(K: array2<real>, gs: seq<Graph>, splist: seq<seq<Path>>, oracle: PathOracle,
                 attrs: DatasetAttrs, nk: Kernels, ek: Kernels, i: nat) returns (failed: Option<Error>)
    requires K.Length0 == |gs| && K.Length1 == |gs| && |splist| == |gs| && i < |gs|
    requires forall k :: 0 <= k < |gs| ==> splist[k] == ShortestPaths(gs[k], oracle, attrs.directed)
    requires forall a, b :: 0 <= a <= b < |gs| && Visited(a, b, i, i) ==>
               K[a, b] == K[b, a] && GraphPairKernel(gs, oracle, attrs, nk, ek, a, b) == Ok(K[a, b])
    modifies K
    ensures failed.None? ==> forall a, b :: 0 <= a <= b < |gs| && Visited(a, b, i + 1, i + 1) ==>
              K[a, b] == K[b, a] && GraphPairKernel(gs, oracle, attrs, nk, ek, a, b) == Ok(K[a, b])
    ensures failed.Some? ==> exists b :: i <= b < |gs| && GraphPairKernel(gs, oracle, attrs, nk, ek, i, b) == Err(failed.value)
  {
    var n := |gs|;
    var j := i;
    while j < n
      invariant i <= j <= n
      invariant forall a, b :: 0 <= a <= b < n && Visited(a, b, i, j) ==>
                  K[a, b] == K[b, a] && GraphPairKernel(gs, oracle, attrs, nk, ek, a, b) == Ok(K[a, b])
    {
      var kernel := StructuralSpDo(gs[i], gs[j], splist[i], splist[j], attrs, nk, ek);
      if kernel.Err? {
        assert GraphPairKernel(gs, oracle, attrs, nk, ek, i, j) == Err(kernel.error);
        return Some(kernel.error);
      }
      K[i, j] := kernel.value;
      K[j, i] := kernel.value;
      j := j + 1;
    }
    failed := None;
  }

  /**
   * `structuralspkernel` over a list of graphs: the path lists of every
   * graph, then the kernel of every pair i <= j written to both K[i][j] and
   * K[j][i]. It fails when `Pool` rejects `n_jobs`, when the chunk size
   * cannot be computed, or when some pair's kernel raises.
   */
  method StructuralSpKernel(gs: seq<Graph>, oracle: PathOracle, attrs: DatasetAttrs, nk: Kernels, ek: Kernels,
                            nJobs: Option<int>) returns (res: Result<array2<real>>)
    ensures res.Ok? <==> nJobs.Some? && nJobs.value >= 1 &&
                         forall a, b :: 0 <= a <= b < |gs| ==> GraphPairKernel(gs, oracle, attrs, nk, ek, a, b).Ok?
    ensures res.Ok? ==> fresh(res.value) && res.value.Length0 == |gs| && res.value.Length1 == |gs|
    ensures res.Ok? ==> forall a, b :: 0 <= a <= b < |gs| ==>
              res.value[a, b] == res.value[b, a] &&
              GraphPairKernel(gs, oracle, attrs, nk, ek, a, b) == Ok(res.value[a, b])
  {
    if nJobs.Some? && nJobs.value < 1 {
      return Err(ValueError("Number of processes must be at least 1"));
    }
    var jobs: Option<nat> := if nJobs.Some? then Some(nJobs.value as nat) else None;
    var n := |gs|;
    // Lines 105-108: the chunk size of the shortest-path pass, from the number of graphs.
    var chunk := ChunkSize(n, jobs);
    if chunk.Err? {
      return Err(chunk.error);
    }
    var splist: seq<seq<Path>> := [];
    var i := 0;
    while i < n
      invariant i <= n && |splist| == i
      invariant forall k :: 0 <= k < i ==> splist[k] == ShortestPaths(gs[k], oracle, attrs.directed)
    {
      var sp := GetShortestPaths(gs[i], oracle, attrs.directed);
      splist := splist + [sp];
      i := i + 1;
    }
    var K := new real[n, n]((a, b) => 0.0);
    // Lines 154-159: the chunk size of the kernel pass, from the number of pairs i <= j;
    // with `jobs` known here it cannot fail.
    var pairChunk := ChunkSize(PairCount(n), jobs);
    i := 0;
    while i < n
      invariant i <= n
      invariant forall a, b :: 0 <= a <= b < n && Visited(a, b, i, i) ==>
                  K[a, b] == K[b, a] && GraphPairKernel(gs, oracle, attrs, nk, ek, a, b) == Ok(K[a, b])
    {
      var failed := FillRow(K, gs, splist, oracle, attrs, nk, ek, i);
      if failed.Some? {
        return Err(failed.value);
      }
      i := i + 1;
    }
    res := Ok(K);
  }
}
