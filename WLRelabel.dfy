/**
 * The single-graph relabelling `relabel` (weisfeilerLehmanKernel.py:263-299)
 * and the Weisfeiler-Lehman shortest-path kernel built on it (lines 220-260).
 *
 * Unlike the subtree kernel, `relabel` numbers the unique signatures of ONE
 * graph by their position in that graph's list of unique signatures, offset
 * by the number of distinct labels the graph carried before the step.
 */
module WLRelabel {
  import opened Text
  import opened WeisfeilerLehman
  import opened Iteration

  // ===========================================================================
  // One relabelling of one graph (lines 263-299)

  /**
   * `xs.index(x)`: the position of the first occurrence of x. (For an x not in
   * xs Python raises ValueError; `relabel` only looks up signatures it listed.)
   */
  function IndexOf(xs: seq<string>, x: string): nat
  {
    if xs == [] || xs[0] == x then 0 else 1 + IndexOf(xs[1..], x)
  }

  /** IndexOf finds x, and no earlier position holds x. */
  lemma {:induction false} IndexOfSpec(xs: seq<string>, x: string)
    requires x in xs
    ensures IndexOf(xs, x) < |xs| && xs[IndexOf(xs, x)] == x && x !in xs[..IndexOf(xs, x)]
  {
    if xs[0] != x {
      IndexOfSpec(xs[1..], x);
      var i := IndexOf(xs, x);
      assert xs[..i] == [xs[0]] + xs[1..][..i - 1];
    }
  }

  /**
   * `set_compressed` (line 290): the number of each unique signature, its
   * position in the list of unique signatures plus m + 1, m being the number
   * of labels before the step. The label is that number printed in decimal.
   */
  function RelabelNumbers(uniq: seq<string>, m: nat): (t: map<string, nat>)
    ensures forall s :: s in t <==> s in uniq
  {
    map s | s in uniq :: IndexOf(uniq, s) + m + 1
  }

  /**
   * Lines 288-295 on a list of signatures: every entry takes the number of
   * its signature among the unique ones (position + m + 1) as a decimal string.
   */
  function Renumber(sigs: seq<string>, m: nat): (r: seq<string>)
    ensures |r| == |sigs|
  {
    seq(|sigs|, v requires 0 <= v < |sigs| => NatStr(IndexOf(Dedup(sigs), sigs[v]) + m + 1))
  }

  /** Entry v becomes str(k + m + 1), k being the position of its signature among the unique ones. */
  lemma RenumberAt(sigs: seq<string>, m: nat, v: nat)
    requires v < |sigs|
    ensures sigs[v] in Dedup(sigs)
    ensures Renumber(sigs, m)[v] == NatStr(IndexOf(Dedup(sigs), sigs[v]) + m + 1)
  {
    DedupSpec(sigs);
  }

  /** Two entries get the same number exactly when their signatures are equal. */
  lemma RenumberSameIffSame(sigs: seq<string>, m: nat, u: nat, v: nat)
    requires u < |sigs| && v < |sigs|
    ensures Renumber(sigs, m)[u] == Renumber(sigs, m)[v] <==> sigs[u] == sigs[v]
  {
    var uniq := Dedup(sigs);
    RenumberAt(sigs, m, u);
    RenumberAt(sigs, m, v);
    IndexOfSpec(uniq, sigs[u]);
    IndexOfSpec(uniq, sigs[v]);
    NatStrInjective(IndexOf(uniq, sigs[u]) + m + 1, IndexOf(uniq, sigs[v]) + m + 1);
  }

  /** Every number is a decimal numeral in m + 1 .. m + |unique signatures|, and there are at most |sigs| of those. */
  lemma RenumberRange(sigs: seq<string>, m: nat, v: nat)
    requires v < |sigs|
    ensures |Dedup(sigs)| <= |sigs|
    ensures AllDigits(Renumber(sigs, m)[v])
    ensures m < DigitsValue(Renumber(sigs, m)[v]) <= m + |Dedup(sigs)|
  {
    RenumberAt(sigs, m, v);
    DedupSpec(sigs);
    IndexOfSpec(Dedup(sigs), sigs[v]);
    NatStrValue(IndexOf(Dedup(sigs), sigs[v]) + m + 1);
  }

  /**
   * Looking every signature up in the table `set_compressed` (lines 289-295)
   * gives the renumbering: the table holds every signature, and the labels
   * read from it are Renumber's.
   */
  lemma RelabelByTable(sigs: seq<string>, m: nat)
    ensures forall v :: 0 <= v < |sigs| ==> sigs[v] in RelabelNumbers(Dedup(sigs), m)
    ensures Relabel(sigs, RelabelNumbers(Dedup(sigs), m)) == Renumber(sigs, m)
  {
    var table := RelabelNumbers(Dedup(sigs), m);
    forall v | 0 <= v < |sigs|
      ensures sigs[v] in table
    {
      RenumberAt(sigs, m, v);
    }
    forall v | 0 <= v < |sigs|
      ensures Relabel(sigs, table)[v] == Renumber(sigs, m)[v]
    {
    }
  }

  /**
   * The labels after one call of `relabel`: m is the number of distinct
   * current labels (lines 274-276), and the signatures (lines 278-286) are
   * renumbered from m + 1 on.
   */
  function RelabelOnce(adj: seq<seq<nat>>, labels: seq<string>): (r: seq<string>)
    requires Fits(adj, labels)
    ensures |r| == |adj|
  {
    Renumber(Signatures(adj, labels), |Dedup(labels)|)
  }

  /** Two nodes get the same new label exactly when their signatures are equal. */
  lemma RelabelOnceSameIffSameSignature(adj: seq<seq<nat>>, labels: seq<string>, u: nat, v: nat)
    requires Fits(adj, labels) && u < |adj| && v < |adj|
    ensures RelabelOnce(adj, labels)[u] == RelabelOnce(adj, labels)[v]
        <==> Signatures(adj, labels)[u] == Signatures(adj, labels)[v]
  {
    RenumberSameIffSame(Signatures(adj, labels), |Dedup(labels)|, u, v);
  }

  /**
   * Every new label is a decimal numeral whose value lies in
   * m + 1 .. m + |unique signatures|, m being the number of distinct labels
   * before the step, and there are no more unique signatures than nodes.
   */
  lemma RelabelOnceRange(adj: seq<seq<nat>>, labels: seq<string>, v: nat)
    requires Fits(adj, labels) && v < |adj|
    ensures |Dedup(Signatures(adj, labels))| <= |adj|
    ensures AllDigits(RelabelOnce(adj, labels)[v])
    ensures |Dedup(labels)| < DigitsValue(RelabelOnce(adj, labels)[v])
                            <= |Dedup(labels)| + |Dedup(Signatures(adj, labels))|
  {
    RenumberRange(Signatures(adj, labels), |Dedup(labels)|, v);
  }

  /**
   * `relabel(G)` (lines 263-299): the signatures are all computed from the old
   * labels before any node is overwritten, then the nodes are relabelled in
   * order. Only the labels change.
   */
  method RelabelGraph(g: LabeledGraph)
    requires g.Valid()
    modifies g
    ensures g.Valid()
    ensures g.labels == RelabelOnce(g.adj, old(g.labels))
  {
    var labelsOri := g.labels;
    var numOfLabels := |Dedup(labelsOri)|;
    var setMultisets := NodeSignatures(g);
    var setUnique := Dedup(setMultisets);
    DedupSpec(setMultisets);
    var setCompressed := RelabelNumbers(setUnique, numOfLabels);
    RelabelNodes(g, setMultisets, setCompressed);
    RelabelByTable(setMultisets, numOfLabels);
    assert RelabelOnce(g.adj, labelsOri) == Renumber(setMultisets, numOfLabels);
  }

  // ===========================================================================
  // The Weisfeiler-Lehman shortest-path kernel of two graphs (lines 220-260)

  /** What the base kernel is given: a graph's structure and its current labels. */
  datatype GraphView = GraphView(adj: seq<seq<nat>>, labels: seq<string>)

  /** `relabel` on a graph with structure adj, as a function of its labels (labels that do not fit are left alone). */
  function Relabelling(adj: seq<seq<nat>>): seq<string> -> seq<string>
  {
    labels => if Fits(adj, labels) then RelabelOnce(adj, labels) else labels
  }

  /**
   * f computes `relabel` on every labeling of the graph adj. The trigger
   * keeps the equation out of sight until a call of `relabel` is in view.
   */
  ghost predicate Relabels(adj: seq<seq<nat>>, f: seq<string> -> seq<string>)
  {
    forall labels {:trigger RelabelOnce(adj, labels)} :: Fits(adj, labels) ==> f(labels) == RelabelOnce(adj, labels)
  }

  /** Relabelling(adj) computes `relabel` on adj. */
  lemma RelabellingRelabels(adj: seq<seq<nat>>)
    ensures Relabels(adj, Relabelling(adj))
  {
  }

  /**
   * The number of base-kernel terms: one before the loop and one per pass of
   * `range(0, height + 1)`, which is empty for height < 0.
   */
  function Terms(height: int): (n: nat)
    ensures height >= -1 ==> n == height + 2
    ensures height < -1 ==> n == 1
  {
    if height + 1 > 0 then height + 2 else 1
  }

  /** How many relabellings a pass applies to each graph: two when G1 and G2 are one object. */
  function Stride(aliased: bool): nat
  {
    if aliased then 2 else 1
  }

  /** The sum of the base kernel over two equally long sequences of labelings, position by position. */
  function SpSum(sp: (GraphView, GraphView) -> real, adj1: seq<seq<nat>>, hist1: seq<seq<string>>,
                 adj2: seq<seq<nat>>, hist2: seq<seq<string>>): real
    requires |hist1| == |hist2|
  {
    if hist1 == [] then 0.0
    else SpSum(sp, adj1, hist1[..|hist1| - 1], adj2, hist2[..|hist2| - 1])
         + sp(GraphView(adj1, hist1[|hist1| - 1]), GraphView(adj2, hist2[|hist2| - 1]))
  }

  /**
   * The kernel after n terms: the base kernel of the labelings after 0, 1,
   * ..., n - 1 passes, each pass applying f1 (f2) stride times to G1 (G2).
   */
  function KernelSum(sp: (GraphView, GraphView) -> real, stride: nat, n: nat,
                     adj1: seq<seq<nat>>, f1: seq<string> -> seq<string>, l1: seq<string>,
                     adj2: seq<seq<nat>>, f2: seq<string> -> seq<string>, l2: seq<string>): real
  {
    SpSum(sp, adj1, Trajectory(f1, l1, stride, n), adj2, Trajectory(f2, l2, stride, n))
  }

  /** One more pass of the loop adds the base kernel of the labelings after n passes. */
  lemma KernelSumStep(sp: (GraphView, GraphView) -> real, stride: nat, n: nat,
                      adj1: seq<seq<nat>>, f1: seq<string> -> seq<string>, l1: seq<string>,
                      adj2: seq<seq<nat>>, f2: seq<string> -> seq<string>, l2: seq<string>)
    ensures KernelSum(sp, stride, n + 1, adj1, f1, l1, adj2, f2, l2)
         == KernelSum(sp, stride, n, adj1, f1, l1, adj2, f2, l2)
            + sp(GraphView(adj1, Repeat(f1, l1, stride * n)), GraphView(adj2, Repeat(f2, l2, stride * n)))
  {
    TrajectoryPrefix(f1, l1, stride, n, n + 1);
    TrajectoryPrefix(f2, l2, stride, n, n + 1);
  }

  /** With a base kernel that always gives c, the sum is |hist| * c: one term per position. */
  lemma {:induction false} SpSumConstant(sp: (GraphView, GraphView) -> real, c: real,
                                         adj1: seq<seq<nat>>, hist1: seq<seq<string>>,
                                         adj2: seq<seq<nat>>, hist2: seq<seq<string>>)
    requires |hist1| == |hist2|
    requires forall x, y :: sp(x, y) == c
    ensures SpSum(sp, adj1, hist1, adj2, hist2) == |hist1| as real * c
  {
    if hist1 != [] {
      SpSumConstant(sp, c, adj1, hist1[..|hist1| - 1], adj2, hist2[..|hist2| - 1]);
    }
  }

  /** A symmetric base kernel gives a symmetric sum. */
  lemma {:induction false} SpSumSymmetric(sp: (GraphView, GraphView) -> real,
                                          adj1: seq<seq<nat>>, hist1: seq<seq<string>>,
                                          adj2: seq<seq<nat>>, hist2: seq<seq<string>>)
    requires |hist1| == |hist2|
    requires forall x, y :: sp(x, y) == sp(y, x)
    ensures SpSum(sp, adj1, hist1, adj2, hist2) == SpSum(sp, adj2, hist2, adj1, hist1)
  {
    if hist1 != [] {
      SpSumSymmetric(sp, adj1, hist1[..|hist1| - 1], adj2, hist2[..|hist2| - 1]);
    }
  }

  /** One call of `relabel` on a graph, stated as a step of its relabelling history. */
  method RelabelStep(g: LabeledGraph, ghost f: seq<string> -> seq<string>, ghost labels: seq<string>, ghost k: nat)
    requires g.Valid() && Relabels(g.adj, f) && g.labels == Repeat(f, labels, k)
    modifies g
    ensures g.Valid() && g.labels == Repeat(f, labels, k + 1)
  {
    RepeatSucc(f, labels, k);
    RelabelGraph(g);
  }

  /**
   * Lines 250-251: G1 and then G2 relabelled in place. When both names
   * denote the same graph, that graph is relabelled twice, so a pass moves
   * each graph stride relabellings further.
   */
  method RelabelRound(g1: LabeledGraph, g2: LabeledGraph,
                      ghost f1: seq<string> -> seq<string>, ghost f2: seq<string> -> seq<string>,
                      ghost l1: seq<string>, ghost l2: seq<string>, ghost stride: nat, ghost h: nat)
    requires g1.Valid() && g2.Valid() && Relabels(g1.adj, f1) && Relabels(g2.adj, f2)
    requires stride == Stride(g1 == g2) && (g1 == g2 ==> f1 == f2 && l1 == l2)
    requires g1.labels == Repeat(f1, l1, stride * h) && g2.labels == Repeat(f2, l2, stride * h)
    modifies g1, g2
    ensures g1.Valid() && g2.Valid()
    ensures g1.labels == Repeat(f1, l1, stride * (h + 1)) && g2.labels == Repeat(f2, l2, stride * (h + 1))
  {
    ghost var k := stride * h;
    assert stride * (h + 1) == k + stride;
    RelabelStep(g1, f1, l1, k);
    if g1 == g2 {
      // the same graph again: its history is one relabelling further on
      RelabelStep(g2, f2, l2, k + 1);
    } else {
      RelabelStep(g2, f2, l2, k);
    }
  }

  /** One pass of the loop (lines 250-254): relabel both graphs, then add the base kernel of the new labels. */
  method KernelPass(g1: LabeledGraph, g2: LabeledGraph, sp: (GraphView, GraphView) -> real, kernel0: real,
                    ghost f1: seq<string> -> seq<string>, ghost f2: seq<string> -> seq<string>,
                    ghost l1: seq<string>, ghost l2: seq<string>, ghost stride: nat, ghost h: nat)
    returns (kernel: real)
    requires g1.Valid() && g2.Valid() && Relabels(g1.adj, f1) && Relabels(g2.adj, f2)
    requires stride == Stride(g1 == g2) && (g1 == g2 ==> f1 == f2 && l1 == l2)
    requires g1.labels == Repeat(f1, l1, stride * h) && g2.labels == Repeat(f2, l2, stride * h)
    requires kernel0 == KernelSum(sp, stride, h + 1, g1.adj, f1, l1, g2.adj, f2, l2)
    modifies g1, g2
    ensures g1.Valid() && g2.Valid()
    ensures g1.labels == Repeat(f1, l1, stride * (h + 1)) && g2.labels == Repeat(f2, l2, stride * (h + 1))
    ensures kernel == KernelSum(sp, stride, h + 2, g1.adj, f1, l1, g2.adj, f2, l2)
  {
    RelabelRound(g1, g2, f1, f2, l1, l2, stride, h);
    KernelSumStep(sp, stride, h + 1, g1.adj, f1, l1, g2.adj, f2, l2);
    kernel := kernel0 + sp(GraphView(g1.adj, g1.labels), GraphView(g2.adj, g2.labels));
  }

  /**
   * `_weisfeilerlehmankernel_do(G1, G2, height)`: the base kernel of the input
   * labelings plus the base kernel after each of the height + 1 rounds, a
   * round relabelling G1 and then G2 in place. When G1 and G2 are the same
   * graph object, each round relabels it twice.
   */
  method WLSpKernel(g1: LabeledGraph, g2: LabeledGraph, height: int, sp: (GraphView, GraphView) -> real)
    returns (kernel: real)
    requires g1.Valid() && g2.Valid()
    modifies g1, g2
    ensures g1.Valid() && g2.Valid()
    ensures kernel == KernelSum(sp, Stride(g1 == g2), Terms(height),
                                g1.adj, Relabelling(g1.adj), old(g1.labels), g2.adj, Relabelling(g2.adj), old(g2.labels))
    ensures g1.labels == Repeat(Relabelling(g1.adj), old(g1.labels), Stride(g1 == g2) * (Terms(height) - 1))
    ensures g2.labels == Repeat(Relabelling(g2.adj), old(g2.labels), Stride(g1 == g2) * (Terms(height) - 1))
  {
    ghost var stride := Stride(g1 == g2);
    ghost var l1, l2 := g1.labels, g2.labels;
    ghost var f1, f2 := Relabelling(g1.adj), Relabelling(g2.adj);
    RelabellingRelabels(g1.adj);
    RelabellingRelabels(g2.adj);
    kernel := 0.0;
    kernel := kernel + sp(GraphView(g1.adj, g1.labels), GraphView(g2.adj, g2.labels));
    KernelSumStep(sp, stride, 0, g1.adj, f1, l1, g2.adj, f2, l2);
    kernel := KernelRounds(g1, g2, height, sp, kernel, f1, f2, l1, l2, stride);
  }

  /** The loop of lines 246-255, entered with the first term of the kernel already summed. */
  method KernelRounds(g1: LabeledGraph, g2: LabeledGraph, height: int, sp: (GraphView, GraphView) -> real,
                      kernel0: real, ghost f1: seq<string> -> seq<string>, ghost f2: seq<string> -> seq<string>,
                      ghost l1: seq<string>, ghost l2: seq<string>, ghost stride: nat)
    returns (kernel: real)
    requires g1.Valid() && g2.Valid() && Relabels(g1.adj, f1) && Relabels(g2.adj, f2)
    requires stride == Stride(g1 == g2) && (g1 == g2 ==> f1 == f2 && l1 == l2)
    requires g1.labels == l1 && g2.labels == l2
    requires kernel0 == KernelSum(sp, stride, 1, g1.adj, f1, l1, g2.adj, f2, l2)
    modifies g1, g2
    ensures g1.Valid() && g2.Valid()
    ensures kernel == KernelSum(sp, stride, Terms(height), g1.adj, f1, l1, g2.adj, f2, l2)
    ensures g1.labels == Repeat(f1, l1, stride * (Terms(height) - 1))
    ensures g2.labels == Repeat(f2, l2, stride * (Terms(height) - 1))
  {
    ghost var n := Terms(height);
    kernel := kernel0;
    var h := 0;
    while h < height + 1
      invariant h < n
      invariant g1.Valid() && g2.Valid()
      invariant g1.labels == Repeat(f1, l1, stride * h) && g2.labels == Repeat(f2, l2, stride * h)
      invariant kernel == KernelSum(sp, stride, h + 1, g1.adj, f1, l1, g2.adj, f2, l2)
    {
      kernel := KernelPass(g1, g2, sp, kernel, f1, f2, l1, l2, stride, h);
      h := h + 1;
    }
    assert h + 1 == n;
  }
}
