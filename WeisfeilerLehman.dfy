/**
 * Weisfeiler-Lehman refinement (pygraph/kernels/weisfeilerLehmanKernel.py).
 *
 * A graph's nodes are 0..n-1 in iteration order; `adj[v]` lists the
 * neighbours of node v in adjacency order and `labels[v]` is its current
 * symbolic label. Refinement replaces every label by a compressed form of the
 * node's signature: its own label followed by the sorted labels of its
 * neighbours, concatenated without a separator.
 */
module WeisfeilerLehman {
  import opened Common
  import opened Text

  // ===========================================================================
  // Graphs

  /** Every neighbour of every node is itself a node. */
  predicate WellFormedAdj(adj: seq<seq<nat>>)
  {
    forall v, k :: 0 <= v < |adj| && 0 <= k < |adj[v]| ==> adj[v][k] < |adj|
  }

  /** A labeling fits an adjacency structure: one label per node. */
  predicate Fits(adj: seq<seq<nat>>, labels: seq<string>)
  {
    WellFormedAdj(adj) && |labels| == |adj|
  }

  /** A networkx graph whose node labels the refinement overwrites in place. */
  class LabeledGraph {
    var labels: seq<string>
    const adj: seq<seq<nat>>

    ghost predicate Valid()
      reads this
    {
      Fits(adj, labels)
    }

    constructor (labels0: seq<string>, adj0: seq<seq<nat>>)
      requires Fits(adj0, labels0)
      ensures Valid() && labels == labels0 && adj == adj0
    {
      labels := labels0;
      adj := adj0;
    }
  }

  // ===========================================================================
  // Signatures (weisfeilerLehmanKernel.py:174-180 and 279-285)

  /** The current labels of v's neighbours, in adjacency order. */
  function NeighbourLabels(adj: seq<seq<nat>>, labels: seq<string>, v: nat): (r: seq<string>)
    requires Fits(adj, labels) && v < |adj|
    ensures |r| == |adj[v]|
    ensures forall k :: 0 <= k < |adj[v]| ==> r[k] == labels[adj[v][k]]
  {
    seq(|adj[v]|, k requires 0 <= k < |adj[v]| => labels[adj[v][k]])
  }

  /** The multiset label of node v: its label, then its neighbours' labels sorted. */
  function Signature(adj: seq<seq<nat>>, labels: seq<string>, v: nat): string
    requires Fits(adj, labels) && v < |adj|
  {
    labels[v] + Concat(Sort(NeighbourLabels(adj, labels, v)))
  }

  /** The signatures of all nodes, indexed by node. */
  function Signatures(adj: seq<seq<nat>>, labels: seq<string>): (sigs: seq<string>)
    requires Fits(adj, labels)
    ensures |sigs| == |adj|
  {
    seq(|adj|, v requires 0 <= v < |adj| => Signature(adj, labels, v))
  }

  /**
   * The signature is the node's label followed by ANY ascending arrangement of
   * its neighbours' labels: it depends on the neighbour labels only as a
   * multiset, not on adjacency order.
   */
  lemma SignatureIsLabelThenSortedNeighbours(adj: seq<seq<nat>>, labels: seq<string>, v: nat, sorted: seq<string>)
    requires Fits(adj, labels) && v < |adj|
    requires Sorted(sorted) && multiset(sorted) == multiset(NeighbourLabels(adj, labels, v))
    ensures Signature(adj, labels, v) == labels[v] + Concat(sorted)
  {
    SortSpec(NeighbourLabels(adj, labels, v));
    SortedUnique(sorted, Sort(NeighbourLabels(adj, labels, v)));
  }

  /**
   * The concatenation has no separator, so two nodes with different labels and
   * different neighbour labels can share a signature: "a" next to "bc" and "ab"
   * next to "c" both give "abc".
   */
  lemma SignatureNotInjective()
    ensures Signature([[1], [0]], ["a", "bc"], 0) == Signature([[1], [0]], ["ab", "c"], 0)
  {
    assert NeighbourLabels([[1], [0]], ["a", "bc"], 0) == ["bc"];
    assert NeighbourLabels([[1], [0]], ["ab", "c"], 0) == ["c"];
  }

  // ===========================================================================
  // Label compression (weisfeilerLehmanKernel.py:183-194)

  /** Whether a sequence holds no string twice. */
  predicate Distinct(xs: seq<string>)
  {
    forall i, j :: 0 <= i < j < |xs| ==> xs[i] != xs[j]
  }

  /**
   * `list(set(xs))`: every string of xs once. Python orders a set by hash; the
   * model takes the order of first occurrence.
   */
  function Dedup(xs: seq<string>): (r: seq<string>)
  {
    if xs == [] then []
    else
      var d := Dedup(xs[..|xs| - 1]);
      var x := xs[|xs| - 1];
      if x in d then d else d + [x]
  }

  /** Dedup keeps every string of xs exactly once. */
  lemma {:induction false} DedupSpec(xs: seq<string>)
    ensures Distinct(Dedup(xs))
    ensures forall x :: x in Dedup(xs) <==> x in xs
    ensures |Dedup(xs)| <= |xs|
  {
    if xs != [] {
      var front := xs[..|xs| - 1];
      DedupSpec(front);
      assert xs == front + [xs[|xs| - 1]];
    }
  }

  /**
   * The compression table of one height: signature -> number of its label.
   * Numbers are distinct and lie in base+1 .. counter, one per signature.
   */
  ghost predicate TableInv(table: map<string, nat>, base: nat, counter: nat)
  {
    && base <= counter
    && (forall s :: s in table ==> base < table[s] <= counter)
    && (forall s, t :: s in table && t in table && s != t ==> table[s] != table[t])
    && |table| == counter - base
  }

  /**
   * The numbering loop over the unique signatures of one graph: a signature
   * already in the table keeps its number, a new one gets counter + 1.
   */
  function CompressUnique(uniq: seq<string>, table: map<string, nat>, counter: nat): (map<string, nat>, nat)
  {
    if uniq == [] then (table, counter)
    else
      var tc := CompressUnique(uniq[..|uniq| - 1], table, counter);
      var s := uniq[|uniq| - 1];
      if s in tc.0 then tc else (tc.0[s := tc.1 + 1], tc.1 + 1)
  }

  /** Issuing number counter + 1 to a new signature keeps the invariant. */
  lemma AddFresh(table: map<string, nat>, base: nat, counter: nat, s: string)
    requires TableInv(table, base, counter) && s !in table
    ensures TableInv(table[s := counter + 1], base, counter + 1)
  {
    assert table[s := counter + 1].Keys == table.Keys + {s};
  }

  /** Compression keeps the table's numbering invariant and never lowers the counter. */
  lemma {:induction false} CompressUniqueKeepsTable(uniq: seq<string>, table: map<string, nat>, base: nat, counter: nat)
    requires TableInv(table, base, counter)
    ensures TableInv(CompressUnique(uniq, table, counter).0, base, CompressUnique(uniq, table, counter).1)
    ensures counter <= CompressUnique(uniq, table, counter).1
  {
    if uniq != [] {
      var front := uniq[..|uniq| - 1];
      var last := uniq[|uniq| - 1];
      CompressUniqueKeepsTable(front, table, base, counter);
      var tc := CompressUnique(front, table, counter);
      if last !in tc.0 {
        AddFresh(tc.0, base, tc.1, last);
      }
    }
  }

  /** Compression never changes a number already issued, and issues numbers exactly for the signatures it meets. */
  lemma {:induction false} CompressUniqueDomain(uniq: seq<string>, table: map<string, nat>, counter: nat)
    ensures forall s :: s in CompressUnique(uniq, table, counter).0 <==> s in table || s in uniq
    ensures forall s :: s in table ==> s in CompressUnique(uniq, table, counter).0 &&
                                       CompressUnique(uniq, table, counter).0[s] == table[s]
  {
    if uniq != [] {
      var front := uniq[..|uniq| - 1];
      var last := uniq[|uniq| - 1];
      CompressUniqueDomain(front, table, counter);
      assert forall s :: s in uniq <==> s in front || s == last by {
        assert uniq == front + [last];
      }
    }
  }

  /**
   * The table after the graphs of one height have been visited in order: it
   * starts empty at every height (line 165) and numbers from `base`.
   */
  function CompressAll(sigss: seq<seq<string>>, base: nat): (map<string, nat>, nat)
  {
    if sigss == [] then (map[], base)
    else
      var tc := CompressAll(sigss[..|sigss| - 1], base);
      CompressUnique(Dedup(sigss[|sigss| - 1]), tc.0, tc.1)
  }

  /** Whether s is the signature of some node of some graph. */
  ghost predicate SignatureOccurs(sigss: seq<seq<string>>, s: string)
  {
    exists g :: 0 <= g < |sigss| && s in sigss[g]
  }

  lemma {:induction false} CompressAllTable(sigss: seq<seq<string>>, base: nat)
    ensures TableInv(CompressAll(sigss, base).0, base, CompressAll(sigss, base).1)
    ensures forall s :: s in CompressAll(sigss, base).0 <==> SignatureOccurs(sigss, s)
  {
    if sigss != [] {
      var front := sigss[..|sigss| - 1];
      var last := sigss[|sigss| - 1];
      CompressAllTable(front, base);
      var tc := CompressAll(front, base);
      CompressUniqueKeepsTable(Dedup(last), tc.0, base, tc.1);
      CompressUniqueDomain(Dedup(last), tc.0, tc.1);
      DedupSpec(last);
      forall s ensures s in CompressAll(sigss, base).0 <==> SignatureOccurs(sigss, s) {
        if SignatureOccurs(sigss, s) {
          var g :| 0 <= g < |sigss| && s in sigss[g];
          if g < |sigss| - 1 {
            assert s in front[g];
          }
        }
        if SignatureOccurs(front, s) {
          var g :| 0 <= g < |front| && s in front[g];
          assert s in sigss[g];
        }
      }
    } else {
      assert TableInv(map[], base, base);
    }
  }

  /** Relabeling with a table: node v gets `str` of its signature's number. */
  function Relabel(sigs: seq<string>, table: map<string, nat>): (r: seq<string>)
    requires forall v :: 0 <= v < |sigs| ==> sigs[v] in table
    ensures |r| == |sigs|
  {
    seq(|sigs|, v requires 0 <= v < |sigs| => NatStr(table[sigs[v]]))
  }

  // ===========================================================================
  // One refinement height over a collection of graphs (lines 164-206)

  /** Every graph of the collection fits its labeling. */
  predicate AllFit(adjs: seq<seq<seq<nat>>>, ls: seq<seq<string>>)
  {
    |adjs| == |ls| && forall g :: 0 <= g < |adjs| ==> Fits(adjs[g], ls[g])
  }

  function AllSignatures(adjs: seq<seq<seq<nat>>>, ls: seq<seq<string>>): (sigss: seq<seq<string>>)
    requires AllFit(adjs, ls)
    ensures |sigss| == |adjs|
  {
    seq(|adjs|, g requires 0 <= g < |adjs| => Signatures(adjs[g], ls[g]))
  }

  /** All labels of all graphs (`all_labels_ori`). */
  function LabelSet(ls: seq<seq<string>>): set<string>
  {
    set g, v | 0 <= g < |ls| && 0 <= v < |ls[g]| :: ls[g][v]
  }

  /** The labelings and label total after one height. */
  datatype Layer = Layer(labelings: seq<seq<string>>, total: nat)

  /**
   * One height: all signatures are computed from the current labels, the
   * table is filled graph by graph, every node gets its signature's label, and
   * the running total grows by the number of distinct labels now in use.
   */
  function Step(adjs: seq<seq<seq<nat>>>, ls: seq<seq<string>>, base: nat): (r: Layer)
    requires AllFit(adjs, ls)
    ensures AllFit(adjs, r.labelings)
  {
    var sigss := AllSignatures(adjs, ls);
    var tc := CompressAll(sigss, base);
    CompressAllTable(sigss, base);
    var next := seq(|sigss|, g requires 0 <= g < |sigss| =>
      assert forall v :: 0 <= v < |sigss[g]| ==> sigss[g][v] in tc.0 by {
        forall v | 0 <= v < |sigss[g]| ensures sigss[g][v] in tc.0 {
          assert SignatureOccurs(sigss, sigss[g][v]) by { assert sigss[g][v] in sigss[g]; }
        }
      }
      Relabel(sigss[g], tc.0));
    Layer(next, base + |LabelSet(next)|)
  }

  /** The label of node v of graph g after one height, read off the table. */
  lemma StepLabelAt(adjs: seq<seq<seq<nat>>>, ls: seq<seq<string>>, base: nat, g: nat, v: nat)
    requires AllFit(adjs, ls) && g < |adjs| && v < |adjs[g]|
    ensures var sigss := AllSignatures(adjs, ls);
      && sigss[g][v] in CompressAll(sigss, base).0
      && Step(adjs, ls, base).labelings[g][v] == NatStr(CompressAll(sigss, base).0[sigss[g][v]])
  {
    var sigss := AllSignatures(adjs, ls);
    CompressAllTable(sigss, base);
    assert sigss[g][v] in sigss[g];
  }

  /**
   * Within one height two nodes, of the same graph or of different graphs,
   * get the same new label exactly when their signatures are equal.
   */
  lemma StepLabelsMatchSignatures(adjs: seq<seq<seq<nat>>>, ls: seq<seq<string>>, base: nat,
                                  g1: nat, v1: nat, g2: nat, v2: nat)
    requires AllFit(adjs, ls)
    requires g1 < |adjs| && v1 < |adjs[g1]| && g2 < |adjs| && v2 < |adjs[g2]|
    ensures Step(adjs, ls, base).labelings[g1][v1] == Step(adjs, ls, base).labelings[g2][v2]
            <==> Signature(adjs[g1], ls[g1], v1) == Signature(adjs[g2], ls[g2], v2)
  {
    var sigss := AllSignatures(adjs, ls);
    var t := CompressAll(sigss, base).0;
    CompressAllTable(sigss, base);
    StepLabelAt(adjs, ls, base, g1, v1);
    StepLabelAt(adjs, ls, base, g2, v2);
    NatStrInjective(t[sigss[g1][v1]], t[sigss[g2][v2]]);
  }

  /** The labels `str(n)` for the numbers n issued in a table. */
  function IssuedLabels(table: map<string, nat>): set<string>
  {
    set s | s in table :: NatStr(table[s])
  }

  /** Distinct numbers print as distinct labels, so there are as many labels as entries. */
  lemma {:induction false} IssuedLabelsCount(table: map<string, nat>)
    requires forall s, t :: s in table && t in table && s != t ==> table[s] != table[t]
    ensures |IssuedLabels(table)| == |table|
    decreases |table|
  {
    if table != map[] {
      var x :| x in table;
      var rest := table - {x};
      assert rest.Keys == table.Keys - {x};
      assert |rest| == |table| - 1;
      IssuedLabelsCount(rest);
      var lx := NatStr(table[x]);
      assert lx !in IssuedLabels(rest) by {
        forall s | s in rest ensures NatStr(rest[s]) != lx {
          NatStrInjective(rest[s], table[x]);
        }
      }
      assert IssuedLabels(table) == IssuedLabels(rest) + {lx} by {
        forall l | l in IssuedLabels(table) ensures l in IssuedLabels(rest) + {lx} {
          var s :| s in table && NatStr(table[s]) == l;
          if s != x { assert s in rest; }
        }
      }
    }
  }

  /**
   * The running total after a height (`all_num_of_labels_occured`, which adds
   * the number of distinct labels in use, line 206) equals the counter that
   * issued them (`num_of_labels_occured`, line 192).
   */
  lemma StepTotalIsCounter(adjs: seq<seq<seq<nat>>>, ls: seq<seq<string>>, base: nat)
    requires AllFit(adjs, ls)
    ensures Step(adjs, ls, base).total == CompressAll(AllSignatures(adjs, ls), base).1
    ensures base <= Step(adjs, ls, base).total
  {
    var sigss := AllSignatures(adjs, ls);
    var tc := CompressAll(sigss, base);
    var next := Step(adjs, ls, base).labelings;
    CompressAllTable(sigss, base);
    assert LabelSet(next) == IssuedLabels(tc.0) by {
      forall l | l in LabelSet(next) ensures l in IssuedLabels(tc.0) {
        var g, v :| 0 <= g < |next| && 0 <= v < |next[g]| && next[g][v] == l;
        StepLabelAt(adjs, ls, base, g, v);
      }
      forall l | l in IssuedLabels(tc.0) ensures l in LabelSet(next) {
        var s :| s in tc.0 && NatStr(tc.0[s]) == l;
        assert SignatureOccurs(sigss, s);
        var g :| 0 <= g < |sigss| && s in sigss[g];
        var v :| 0 <= v < |sigss[g]| && sigss[g][v] == s;
        StepLabelAt(adjs, ls, base, g, v);
      }
    }
    IssuedLabelsCount(tc.0);
  }

  /** Every new label is `str(n)` for a number n in base+1 .. the new total. */
  lemma StepLabelRange(adjs: seq<seq<seq<nat>>>, ls: seq<seq<string>>, base: nat, g: nat, v: nat)
    requires AllFit(adjs, ls) && g < |adjs| && v < |adjs[g]|
    ensures AllDigits(Step(adjs, ls, base).labelings[g][v])
    ensures base < DigitsValue(Step(adjs, ls, base).labelings[g][v]) <= Step(adjs, ls, base).total
  {
    var sigss := AllSignatures(adjs, ls);
    var t := CompressAll(sigss, base).0;
    CompressAllTable(sigss, base);
    StepLabelAt(adjs, ls, base, g, v);
    StepTotalIsCounter(adjs, ls, base);
    NatStrValue(t[sigss[g][v]]);
  }

  // ===========================================================================
  // The refinement history (heights 0..height)

  /**
   * The labelings after h heights, with the label total the next height
   * numbers from. At height 0 the total is the number of distinct original
   * labels over all graphs (line 152).
   */
  function Refined(adjs: seq<seq<seq<nat>>>, ls0: seq<seq<string>>, h: nat): (r: Layer)
    requires AllFit(adjs, ls0)
    ensures AllFit(adjs, r.labelings)
  {
    Iterate(adjs, Layer(ls0, |LabelSet(ls0)|), h)
  }

  /** The layer reached from `start` after h more heights. */
  function Iterate(adjs: seq<seq<seq<nat>>>, start: Layer, h: nat): (r: Layer)
    requires AllFit(adjs, start.labelings)
    ensures AllFit(adjs, r.labelings)
    decreases h
  {
    if h == 0 then start
    else Iterate(adjs, Step(adjs, start.labelings, start.total), h - 1)
  }

  /** The last of h + 1 heights is one height applied to the first h. */
  lemma {:induction false} IterateSucc(adjs: seq<seq<seq<nat>>>, start: Layer, h: nat)
    requires AllFit(adjs, start.labelings)
    ensures Iterate(adjs, start, h + 1) == Step(adjs, Iterate(adjs, start, h).labelings, Iterate(adjs, start, h).total)
    decreases h
  {
    if h > 0 {
      var next := Step(adjs, start.labelings, start.total);
      IterateSucc(adjs, next, h - 1);
      assert Iterate(adjs, start, h + 1) == Iterate(adjs, next, h);
      assert Iterate(adjs, start, h) == Iterate(adjs, next, h - 1);
    }
  }

  /** Height h + 1 is one refinement height applied to height h. */
  lemma RefinedSucc(adjs: seq<seq<seq<nat>>>, ls0: seq<seq<string>>, h: nat)
    requires AllFit(adjs, ls0)
    ensures Refined(adjs, ls0, h + 1) == Step(adjs, Refined(adjs, ls0, h).labelings, Refined(adjs, ls0, h).total)
  {
    IterateSucc(adjs, Layer(ls0, |LabelSet(ls0)|), h);
  }

  /** One more height never lowers the label total. */
  lemma RefinedTotalGrows(adjs: seq<seq<seq<nat>>>, ls0: seq<seq<string>>, h: nat)
    requires AllFit(adjs, ls0)
    ensures Refined(adjs, ls0, h).total <= Refined(adjs, ls0, h + 1).total
  {
    var prev := Refined(adjs, ls0, h);
    RefinedSucc(adjs, ls0, h);
    StepTotalIsCounter(adjs, prev.labelings, prev.total);
  }

  lemma {:induction false} RefinedTotalMonotone(adjs: seq<seq<seq<nat>>>, ls0: seq<seq<string>>, h1: nat, h2: nat)
    requires AllFit(adjs, ls0) && h1 <= h2
    ensures Refined(adjs, ls0, h1).total <= Refined(adjs, ls0, h2).total
    decreases h2 - h1
  {
    if h1 < h2 {
      RefinedTotalGrows(adjs, ls0, h1);
      RefinedTotalMonotone(adjs, ls0, h1 + 1, h2);
    }
  }

  /**
   * The labels of height h+1 are `str(n)` for numbers n above the total after
   * height h and at most the total after height h+1.
   */
  lemma RefinedLabelRange(adjs: seq<seq<seq<nat>>>, ls0: seq<seq<string>>, h: nat, g: nat, v: nat)
    requires AllFit(adjs, ls0) && g < |adjs| && v < |adjs[g]|
    ensures AllDigits(Refined(adjs, ls0, h + 1).labelings[g][v])
    ensures Refined(adjs, ls0, h).total < DigitsValue(Refined(adjs, ls0, h + 1).labelings[g][v])
                                       <= Refined(adjs, ls0, h + 1).total
  {
    var prev := Refined(adjs, ls0, h);
    RefinedSucc(adjs, ls0, h);
    StepLabelRange(adjs, prev.labelings, prev.total, g, v);
  }

  /**
   * Labels issued at two different heights never coincide: here heights
   * h1 + 1 and h2 + 1 with h1 < h2 (height 0 holds the original labels).
   */
  lemma HeightsIssueDisjointLabels(adjs: seq<seq<seq<nat>>>, ls0: seq<seq<string>>,
                                   h1: nat, g1: nat, v1: nat, h2: nat, g2: nat, v2: nat)
    requires AllFit(adjs, ls0) && h1 < h2
    requires g1 < |adjs| && v1 < |adjs[g1]| && g2 < |adjs| && v2 < |adjs[g2]|
    ensures Refined(adjs, ls0, h1 + 1).labelings[g1][v1] != Refined(adjs, ls0, h2 + 1).labelings[g2][v2]
  {
    var t1 := Refined(adjs, ls0, h1 + 1).total;
    var t2 := Refined(adjs, ls0, h2).total;
    var x := Refined(adjs, ls0, h1 + 1).labelings[g1][v1];
    var y := Refined(adjs, ls0, h2 + 1).labelings[g2][v2];
    RefinedLabelRange(adjs, ls0, h1, g1, v1);
    RefinedLabelRange(adjs, ls0, h2, g2, v2);
    RefinedTotalMonotone(adjs, ls0, h1 + 1, h2);
    assert AllDigits(x) && AllDigits(y) && DigitsValue(x) <= t1 <= t2 < DigitsValue(y);
  }

  // ===========================================================================
  // Label counts and their dot product (lines 146, 157-160, 203, 211-214)

  /** `Counter(labels)`: how often each label occurs. */
  function Counts(ls: seq<string>): (c: map<string, nat>)
    ensures forall l :: l in c <==> l in ls
    ensures forall l :: l in c ==> c[l] == multiset(ls)[l]
  {
    map l | l in ls :: multiset(ls)[l]
  }

  /** A count vector's entry: the count, or 0 for a label it does not hold. */
  function Get(c: map<string, nat>, l: string): nat
  {
    if l in c then c[l] else 0
  }

  /** The sum over the labels of S of the products of the two counts. */
  ghost function DotOver(S: set<string>, c1: map<string, nat>, c2: map<string, nat>): int
  {
    if S == {} then 0
    else
      var l :| l in S;
      Get(c1, l) * Get(c2, l) + DotOver(S - {l}, c1, c2)
  }

  lemma {:induction false} DotOverRemove(S: set<string>, c1: map<string, nat>, c2: map<string, nat>, y: string)
    requires y in S
    ensures DotOver(S, c1, c2) == Get(c1, y) * Get(c2, y) + DotOver(S - {y}, c1, c2)
    decreases |S|
  {
    var x :| x in S && DotOver(S, c1, c2) == Get(c1, x) * Get(c2, x) + DotOver(S - {x}, c1, c2);
    if x != y {
      DotOverRemove(S - {x}, c1, c2, y);
      DotOverRemove(S - {y}, c1, c2, x);
      assert S - {x} - {y} == S - {y} - {x};
    }
  }

  /** The sum only looks at the counts of the labels in S. */
  lemma {:induction false} DotOverCongruent(S: set<string>, c1: map<string, nat>, c2: map<string, nat>,
                                            d1: map<string, nat>, d2: map<string, nat>)
    requires forall l :: l in S ==> Get(c1, l) * Get(c2, l) == Get(d1, l) * Get(d2, l)
    ensures DotOver(S, c1, c2) == DotOver(S, d1, d2)
    decreases |S|
  {
    if S != {} {
      var y :| y in S;
      DotOverRemove(S, c1, c2, y);
      DotOverRemove(S, d1, d2, y);
      DotOverCongruent(S - {y}, c1, c2, d1, d2);
    }
  }

  /** The dot product of two count vectors over the union of their labels. */
  ghost function CountsDot(c1: map<string, nat>, c2: map<string, nat>): int
  {
    DotOver(c1.Keys + c2.Keys, c1, c2)
  }

  /**
   * The number of node pairs (a, b), a of the first labeling and b of the
   * second, that carry the same label.
   */
  function MatchCount(x: seq<string>, y: seq<string>): nat
  {
    if x == [] then 0 else MatchCount(x[..|x| - 1], y) + multiset(y)[x[|x| - 1]]
  }

  /** With no counts on one side the sum is 0. */
  lemma {:induction false} DotOverZero(S: set<string>, c1: map<string, nat>, c2: map<string, nat>)
    requires c1 == map[]
    ensures DotOver(S, c1, c2) == 0
    decreases |S|
  {
    if S != {} {
      var y :| y in S;
      DotOverRemove(S, c1, c2, y);
      DotOverZero(S - {y}, c1, c2);
    }
  }

  lemma MulSucc(a: int, n: int)
    ensures (a + 1) * n == a * n + n
  {
  }

  /** Appending z to a labeling adds one to z's count and changes no other. */
  lemma CountsSnoc(front: seq<string>, z: string, l: string)
    ensures Get(Counts(front + [z]), l) == Get(Counts(front), l) + (if l == z then 1 else 0)
  {
    assert multiset(front + [z]) == multiset(front) + multiset{z};
  }

  lemma {:induction false} DotOverCounts(S: set<string>, x: seq<string>, y: seq<string>)
    requires forall l :: l in x ==> l in S
    ensures DotOver(S, Counts(x), Counts(y)) == MatchCount(x, y)
    decreases |x|
  {
    if x != [] {
      var front := x[..|x| - 1];
      var z := x[|x| - 1];
      assert x == front + [z];
      var cx, cf, cy := Counts(x), Counts(front), Counts(y);
      forall l | l in S - {z} ensures Get(cx, l) * Get(cy, l) == Get(cf, l) * Get(cy, l) {
        CountsSnoc(front, z, l);
      }
      CountsSnoc(front, z, z);
      var n := Get(cy, z);
      assert Get(cx, z) == Get(cf, z) + 1;
      MulSucc(Get(cf, z), n);
      assert z in S;
      DotOverCounts(S, front, y);
      DotOverRemove(S, cx, cy, z);
      DotOverRemove(S, cf, cy, z);
      DotOverCongruent(S - {z}, cx, cy, cf, cy);
      assert n == multiset(y)[z];
      assert MatchCount(x, y) == MatchCount(front, y) + multiset(y)[z];
    } else {
      DotOverZero(S, Counts(x), Counts(y));
    }
  }

  /**
   * The subtree kernel of one height: the dot product of the two graphs'
   * label-count vectors over the union of their labels, absent labels counting
   * 0, is the number of equally labelled node pairs.
   */
  lemma CountsDotIsMatchCount(x: seq<string>, y: seq<string>)
    ensures CountsDot(Counts(x), Counts(y)) == MatchCount(x, y)
  {
    DotOverCounts(Counts(x).Keys + Counts(y).Keys, x, y);
  }

  lemma MatchCountSymmetric(x: seq<string>, y: seq<string>)
    ensures MatchCount(x, y) == MatchCount(y, x)
  {
    CountsDotIsMatchCount(x, y);
    CountsDotIsMatchCount(y, x);
    assert Counts(x).Keys + Counts(y).Keys == Counts(y).Keys + Counts(x).Keys;
    DotOverCongruent(Counts(x).Keys + Counts(y).Keys, Counts(x), Counts(y), Counts(y), Counts(x));
  }

  /** Each string of a list without repeats occurs in it once. */
  lemma {:induction false} DistinctOnce(d: seq<string>, z: string)
    requires Distinct(d) && z in d
    ensures multiset(d)[z] == 1
    decreases |d|
  {
    var front := d[..|d| - 1];
    var last := d[|d| - 1];
    assert d == front + [last];
    assert multiset(d) == multiset(front) + multiset{last};
    if z == last {
      assert z !in front;
    } else {
      DistinctOnce(front, z);
    }
  }

  /** Pairing x with a list that holds each of its strings once matches every node of x once. */
  lemma {:induction false} MatchCountOnce(x: seq<string>, y: seq<string>)
    requires forall z :: z in x ==> multiset(y)[z] == 1
    ensures MatchCount(x, y) == |x|
    decreases |x|
  {
    if x != [] {
      var front := x[..|x| - 1];
      assert forall z :: z in front ==> z in x;
      MatchCountOnce(front, y);
    }
  }

  /** The all-ones vector over the labels of a labeling. */
  function Ones(ls: seq<string>): map<string, nat>
  {
    map l | l in ls :: 1
  }

  /** The counts of a labeling sum (their dot product with the all-ones vector) to its number of nodes. */
  lemma CountsTotal(ls: seq<string>)
    ensures DotOver(Counts(ls).Keys, Counts(ls), Ones(ls)) == |ls|
  {
    var S := Counts(ls).Keys;
    var d := Dedup(ls);
    DedupSpec(ls);
    forall z | z in ls
      ensures multiset(d)[z] == 1
    {
      DistinctOnce(d, z);
    }
    forall l | l in S
      ensures Get(Counts(ls), l) * Get(Counts(d), l) == Get(Counts(ls), l) * Get(Ones(ls), l)
    {
      assert multiset(d)[l] == 1;
    }
    DotOverCongruent(S, Counts(ls), Counts(d), Counts(ls), Ones(ls));
    DotOverCounts(S, ls, d);
    MatchCountOnce(ls, d);
  }

  /**
   * Relabelling only rewrites labels: after any number of heights each graph's
   * label counts still sum to its number of nodes.
   */
  lemma RefinedCountsTotal(adjs: seq<seq<seq<nat>>>, ls0: seq<seq<string>>, h: nat, g: nat)
    requires AllFit(adjs, ls0) && g < |adjs|
    ensures var ls := Refined(adjs, ls0, h).labelings[g];
            DotOver(Counts(ls).Keys, Counts(ls), Ones(ls)) == |adjs[g]|
  {
    CountsTotal(Refined(adjs, ls0, h).labelings[g]);
  }

  /** The labelings of heights 0..h. */
  function History(adjs: seq<seq<seq<nat>>>, ls0: seq<seq<string>>, h: nat): (r: seq<seq<seq<string>>>)
    requires AllFit(adjs, ls0)
    ensures |r| == h + 1
  {
    if h == 0 then [ls0]
    else History(adjs, ls0, h - 1) + [Refined(adjs, ls0, h).labelings]
  }

  /** Entry k of the history is the labeling after k heights. */
  lemma {:induction false} HistoryAt(adjs: seq<seq<seq<nat>>>, ls0: seq<seq<string>>, h: nat, k: nat)
    requires AllFit(adjs, ls0) && k <= h
    ensures History(adjs, ls0, h)[k] == Refined(adjs, ls0, k).labelings
    decreases h
  {
    if k < h {
      var m := h - 1;
      HistoryAt(adjs, ls0, m, k);
      assert History(adjs, ls0, m + 1) == History(adjs, ls0, m) + [Refined(adjs, ls0, m + 1).labelings];
    }
  }

  /**
   * The kernel value of graphs a and b over the given layers: for each layer
   * the number of node pairs with equal labels, summed (a layer without both
   * graphs adds nothing).
   */
  function LayersKernel(layers: seq<seq<seq<string>>>, a: nat, b: nat): nat
  {
    if layers == [] then 0
    else
      var last := layers[|layers| - 1];
      LayersKernel(layers[..|layers| - 1], a, b) + (if a < |last| && b < |last| then MatchCount(last[a], last[b]) else 0)
  }

  /** The kernel value of graphs a and b accumulated over heights 0..h. */
  function KernelSum(adjs: seq<seq<seq<nat>>>, ls0: seq<seq<string>>, h: nat, a: nat, b: nat): nat
    requires AllFit(adjs, ls0) && a < |adjs| && b < |adjs|
  {
    LayersKernel(History(adjs, ls0, h), a, b)
  }

  /** The kernel matrix is symmetric. */
  lemma {:induction false} LayersKernelSymmetric(layers: seq<seq<seq<string>>>, a: nat, b: nat)
    ensures LayersKernel(layers, a, b) == LayersKernel(layers, b, a)
  {
    if layers != [] {
      var last := layers[|layers| - 1];
      if a < |last| && b < |last| {
        MatchCountSymmetric(last[a], last[b]);
      }
      LayersKernelSymmetric(layers[..|layers| - 1], a, b);
    }
  }

  /** Height 0 counts the pairs with equal original labels. */
  lemma KernelSumZero(adjs: seq<seq<seq<nat>>>, ls0: seq<seq<string>>, a: nat, b: nat)
    requires AllFit(adjs, ls0) && a < |adjs| && b < |adjs|
    ensures KernelSum(adjs, ls0, 0, a, b) == MatchCount(ls0[a], ls0[b])
  {
    var hist := History(adjs, ls0, 0);
    assert hist == [ls0];
    assert hist[..0] == [];
    assert LayersKernel(hist, a, b) == LayersKernel([], a, b) + MatchCount(ls0[a], ls0[b]);
  }

  /** One more height adds its count of equally labelled pairs. */
  lemma KernelSumNext(adjs: seq<seq<seq<nat>>>, ls0: seq<seq<string>>, h: nat, a: nat, b: nat)
    requires AllFit(adjs, ls0) && a < |adjs| && b < |adjs|
    ensures KernelSum(adjs, ls0, h + 1, a, b) == KernelSum(adjs, ls0, h, a, b) +
              MatchCount(Refined(adjs, ls0, h + 1).labelings[a], Refined(adjs, ls0, h + 1).labelings[b])
  {
    var hist := History(adjs, ls0, h + 1);
    assert hist[..|hist| - 1] == History(adjs, ls0, h);
  }

  lemma CountsDotSymmetric(c1: map<string, nat>, c2: map<string, nat>)
    ensures CountsDot(c1, c2) == CountsDot(c2, c1)
  {
    assert c1.Keys + c2.Keys == c2.Keys + c1.Keys;
    DotOverCongruent(c1.Keys + c2.Keys, c1, c2, c2, c1);
  }

  /** The labels of one more graph join the labels in use. */
  lemma LabelSetSnoc(ls: seq<seq<string>>, x: seq<string>)
    ensures LabelSet(ls + [x]) == LabelSet(ls) + set v | 0 <= v < |x| :: x[v]
  {
    var ls' := ls + [x];
    forall l | l in LabelSet(ls') ensures l in LabelSet(ls) + set v | 0 <= v < |x| :: x[v] {
      var g, v :| 0 <= g < |ls'| && 0 <= v < |ls'[g]| && ls'[g][v] == l;
      if g < |ls| { assert ls[g][v] == l; }
    }
    forall l | l in LabelSet(ls) ensures l in LabelSet(ls') {
      var g, v :| 0 <= g < |ls| && 0 <= v < |ls[g]| && ls[g][v] == l;
      assert ls'[g][v] == l;
    }
    forall v | 0 <= v < |x| ensures x[v] in LabelSet(ls') {
      assert ls'[|ls|][v] == x[v];
    }
  }

  // ===========================================================================
  // The collection of graphs the kernel refines in place

  ghost predicate AllValid(gs: seq<LabeledGraph>)
    reads set g | g in gs
  {
    forall k :: 0 <= k < |gs| ==> gs[k].Valid()
  }

  /** The refinement writes into every graph once per height: no graph may appear twice. */
  predicate DistinctGraphs(gs: seq<LabeledGraph>)
  {
    forall i, j :: 0 <= i < j < |gs| ==> gs[i] != gs[j]
  }

  function Adjs(gs: seq<LabeledGraph>): (r: seq<seq<seq<nat>>>)
    ensures |r| == |gs| && forall k :: 0 <= k < |gs| ==> r[k] == gs[k].adj
  {
    seq(|gs|, k requires 0 <= k < |gs| => gs[k].adj)
  }

  function Labelings(gs: seq<LabeledGraph>): (r: seq<seq<string>>)
    reads set g | g in gs
    ensures |r| == |gs| && forall k :: 0 <= k < |gs| ==> r[k] == gs[k].labels
  {
    seq(|gs|, k requires 0 <= k < |gs| reads set g | g in gs => gs[k].labels)
  }

  lemma AllValidFits(gs: seq<LabeledGraph>)
    requires AllValid(gs)
    ensures AllFit(Adjs(gs), Labelings(gs))
  {
  }

  // ===========================================================================
  // The steps of one height, as the source performs them

  /** The signature loop of lines 174-180 over the nodes in order. */
  method NodeSignatures(g: LabeledGraph) returns (sigs: seq<string>)
    requires g.Valid()
    ensures sigs == Signatures(g.adj, g.labels)
  {
    sigs := [];
    var v := 0;
    while v < |g.adj|
      invariant 0 <= v <= |g.adj|
      invariant |sigs| == v
      invariant forall u :: 0 <= u < v ==> sigs[u] == Signature(g.adj, g.labels, u)
    {
      var neighbours := NeighbourLabels(g.adj, g.labels, v);
      var sorted := Sort(neighbours);
      sigs := sigs + [g.labels[v] + Concat(sorted)];
      v := v + 1;
    }
  }

  /**
   * One more unique signature: with the numbers of this graph kept apart from
   * the table, a signature already in the table keeps its number and a new
   * one gets counter + 1.
   */
  lemma CompressUniqueNext(uniq: seq<string>, k: nat, table: map<string, nat>, counter: nat,
                           compressed: map<string, nat>, c: nat)
    requires Distinct(uniq) && k < |uniq|
    requires (table + compressed, c) == CompressUnique(uniq[..k], table, counter)
    requires forall s :: s in compressed <==> s in uniq[..k]
    ensures uniq[k] in table ==>
      (table + compressed[uniq[k] := table[uniq[k]]], c) == CompressUnique(uniq[..k + 1], table, counter)
    ensures uniq[k] !in table ==>
      (table + compressed[uniq[k] := c + 1], c + 1) == CompressUnique(uniq[..k + 1], table, counter)
  {
    var value := uniq[k];
    var merged := table + compressed;
    assert uniq[..k + 1][..k] == uniq[..k];
    assert uniq[..k + 1][k] == value;
    assert CompressUnique(uniq[..k + 1], table, counter)
        == if value in merged then (merged, c) else (merged[value := c + 1], c + 1);
    assert value !in uniq[..k];
    assert value !in compressed;
    if value in table {
      assert table + compressed[value := table[value]] == table + compressed;
    } else {
      assert table + compressed[value := c + 1] == (table + compressed)[value := c + 1];
    }
  }

  /**
   * The compression loop of lines 183-194 for one graph: the signatures
   * already numbered at this height keep their number, each new one gets the
   * next number; then the graph's numbers are merged into the height's table.
   */
  method CompressGraph(sigs: seq<string>, table: map<string, nat>, counter: nat)
    returns (compressed: map<string, nat>, table': map<string, nat>, counter': nat)
    ensures (table', counter') == CompressUnique(Dedup(sigs), table, counter)
    ensures forall s :: s in compressed <==> s in sigs
    ensures forall s :: s in compressed ==> s in table' && compressed[s] == table'[s]
  {
    var uniq := Dedup(sigs);
    DedupSpec(sigs);
    compressed := map[];
    counter' := counter;
    assert table + compressed == table;
    var k := 0;
    while k < |uniq|
      invariant 0 <= k <= |uniq|
      invariant (table + compressed, counter') == CompressUnique(uniq[..k], table, counter)
      invariant forall s :: s in compressed <==> s in uniq[..k]
    {
      var value := uniq[k];
      CompressUniqueNext(uniq, k, table, counter, compressed, counter');
      if value in table {
        compressed := compressed[value := table[value]];
      } else {
        compressed := compressed[value := counter' + 1];
        counter' := counter' + 1;
      }
      k := k + 1;
    }
    assert uniq[..|uniq|] == uniq;
    table' := table + compressed;
  }

  /** Lines 197-198: every node takes the label its signature was compressed to. */
  method RelabelNodes(g: LabeledGraph, sigs: seq<string>, compressed: map<string, nat>)
    requires g.Valid() && |sigs| == |g.adj|
    requires forall v :: 0 <= v < |sigs| ==> sigs[v] in compressed
    modifies g
    ensures g.Valid()
    ensures g.labels == Relabel(sigs, compressed)
  {
    var v := 0;
    while v < |g.adj|
      invariant 0 <= v <= |g.adj|
      invariant g.Valid()
      invariant forall u :: 0 <= u < v ==> g.labels[u] == NatStr(compressed[sigs[u]])
    {
      g.labels := g.labels[v := NatStr(compressed[sigs[v]])];
      v := v + 1;
    }
  }

  /**
   * The work of one height on one graph (lines 171-203): signatures,
   * compression against the height's table, relabelling in place, then the
   * graph's new labels and their counts.
   */
  method RefineGraph(g: LabeledGraph, table: map<string, nat>, counter: nat)
    returns (sigs: seq<string>, table': map<string, nat>, counter': nat, used: set<string>, count: map<string, nat>)
    requires g.Valid()
    modifies g
    ensures g.Valid()
    ensures sigs == Signatures(g.adj, old(g.labels))
    ensures (table', counter') == CompressUnique(Dedup(sigs), table, counter)
    ensures forall v :: 0 <= v < |sigs| ==> sigs[v] in table' && g.labels[v] == NatStr(table'[sigs[v]])
    ensures used == set v | 0 <= v < |g.labels| :: g.labels[v]
    ensures count == Counts(g.labels)
  {
    sigs := NodeSignatures(g);
    var compressed;
    compressed, table', counter' := CompressGraph(sigs, table, counter);
    RelabelNodes(g, sigs, compressed);
    used := set v | 0 <= v < |g.labels| :: g.labels[v];
    count := Counts(g.labels);
  }

  /**
   * The first |done| graphs carry the labels the table gives their signatures.
   */
  ghost predicate Relabelled(sigss: seq<seq<string>>, done: seq<seq<string>>, table: map<string, nat>)
  {
    && |done| <= |sigss|
    && (forall k :: 0 <= k < |done| ==> |done[k]| == |sigss[k]|)
    && (forall k, v :: 0 <= k < |done| && 0 <= v < |sigss[k]| ==>
          sigss[k][v] in table && done[k][v] == NatStr(table[sigss[k][v]]))
  }

  /** One more graph relabelled with a table that extends the previous one. */
  lemma RelabelledExtend(sigss: seq<seq<string>>, done: seq<seq<string>>, table0: map<string, nat>,
                         table: map<string, nat>, x: seq<string>)
    requires Relabelled(sigss, done, table0) && |done| < |sigss|
    requires forall s :: s in table0 ==> s in table && table[s] == table0[s]
    requires |x| == |sigss[|done|]|
    requires forall v :: 0 <= v < |x| ==> sigss[|done|][v] in table && x[v] == NatStr(table[sigss[|done|][v]])
    ensures Relabelled(sigss, done + [x], table)
  {
  }

  /** The table after one more graph of the height. */
  lemma CompressAllNext(sigss: seq<seq<string>>, base: nat, idx: nat)
    requires idx < |sigss|
    ensures TableInv(CompressAll(sigss[..idx], base).0, base, CompressAll(sigss[..idx], base).1)
    ensures CompressAll(sigss[..idx + 1], base)
            == CompressUnique(Dedup(sigss[idx]), CompressAll(sigss[..idx], base).0, CompressAll(sigss[..idx], base).1)
    ensures forall s :: s in CompressAll(sigss[..idx], base).0 ==>
              s in CompressAll(sigss[..idx + 1], base).0 &&
              CompressAll(sigss[..idx + 1], base).0[s] == CompressAll(sigss[..idx], base).0[s]
  {
    var tc := CompressAll(sigss[..idx], base);
    CompressAllTable(sigss[..idx], base);
    CompressUniqueKeepsTable(Dedup(sigss[idx]), tc.0, base, tc.1);
    CompressUniqueDomain(Dedup(sigss[idx]), tc.0, tc.1);
    assert sigss[..idx + 1][..idx] == sigss[..idx];
  }

  /** All graphs relabelled with the height's final table: that is the next layer. */
  lemma RelabelledIsStep(adjs: seq<seq<seq<nat>>>, ls: seq<seq<string>>, base: nat, done: seq<seq<string>>)
    requires AllFit(adjs, ls)
    requires Relabelled(AllSignatures(adjs, ls), done, CompressAll(AllSignatures(adjs, ls), base).0)
    requires |done| == |adjs|
    ensures done == Step(adjs, ls, base).labelings
  {
    var next := Step(adjs, ls, base).labelings;
    forall k | 0 <= k < |done| ensures done[k] == next[k] {
      forall v | 0 <= v < |done[k]| ensures done[k][v] == next[k][v] {
        StepLabelAt(adjs, ls, base, k, v);
      }
    }
  }

  /** The label counts of each labeling, in order. */
  function CountsOf(ls: seq<seq<string>>): (r: seq<map<string, nat>>)
    ensures |r| == |ls| && forall k :: 0 <= k < |ls| ==> r[k] == Counts(ls[k])
  {
    seq(|ls|, k requires 0 <= k < |ls| => Counts(ls[k]))
  }

  lemma CountsOfSnoc(ls: seq<seq<string>>, x: seq<string>)
    ensures CountsOf(ls + [x]) == CountsOf(ls) + [Counts(x)]
  {
  }

  /**
   * Lines 171-204 for graph `idx` of a height: the graph is relabelled with
   * the height's table, its labels join those in use and its counts are
   * appended; the graphs after it still hold their old labels.
   */
  method RefineNext(gs: seq<LabeledGraph>, idx: nat, base: nat, ghost ls0: seq<seq<string>>,
                    ghost sigss: seq<seq<string>>, ghost done: seq<seq<string>>,
                    table: map<string, nat>, counter: nat, labelsInUse: set<string>,
                    counts: seq<map<string, nat>>)
    returns (table': map<string, nat>, counter': nat, labelsInUse': set<string>,
             counts': seq<map<string, nat>>, ghost done': seq<seq<string>>)
    requires idx < |gs| && AllValid(gs) && DistinctGraphs(gs)
    requires AllFit(Adjs(gs), ls0) && sigss == AllSignatures(Adjs(gs), ls0)
    requires forall k :: idx <= k < |gs| ==> gs[k].labels == ls0[k]
    requires |done| == idx && forall k :: 0 <= k < idx ==> done[k] == gs[k].labels
    requires (table, counter) == CompressAll(sigss[..idx], base)
    requires Relabelled(sigss, done, table)
    requires labelsInUse == LabelSet(done)
    requires counts == CountsOf(done)
    modifies gs[idx]
    ensures AllValid(gs)
    ensures forall k :: idx < k < |gs| ==> gs[k].labels == ls0[k]
    ensures |done'| == idx + 1 && forall k :: 0 <= k <= idx ==> done'[k] == gs[k].labels
    ensures (table', counter') == CompressAll(sigss[..idx + 1], base)
    ensures Relabelled(sigss, done', table')
    ensures labelsInUse' == LabelSet(done')
    ensures counts' == CountsOf(done')
  {
    var g := gs[idx];
    CompressAllNext(sigss, base, idx);
    assert Signatures(g.adj, g.labels) == sigss[idx];
    var sigs, used, count;
    sigs, table', counter', used, count := RefineGraph(g, table, counter);
    CountsOfSnoc(done, g.labels);
    RelabelledExtend(sigss, done, table, table', g.labels);
    LabelSetSnoc(done, g.labels);
    done' := done + [g.labels];
    labelsInUse' := labelsInUse + used;
    counts' := counts + [count];
    forall k | 0 <= k < |gs| && k != idx
      ensures gs[k].Valid() && gs[k].labels == old(gs[k].labels)
    {
      assert gs[k] != g;
    }
  }

  /**
   * One height over all graphs (lines 164-206): every graph is relabelled in
   * place, the returned total grows by the number of labels now in use, and
   * the label counts of every graph are returned.
   */
  method RefineHeight(gs: seq<LabeledGraph>, base: nat) returns (total: nat, counts: seq<map<string, nat>>)
    requires AllValid(gs) && DistinctGraphs(gs)
    modifies set g | g in gs
    ensures AllValid(gs)
    ensures old(AllFit(Adjs(gs), Labelings(gs)))
    ensures Labelings(gs) == Step(Adjs(gs), old(Labelings(gs)), base).labelings
    ensures total == Step(Adjs(gs), old(Labelings(gs)), base).total
    ensures counts == CountsOf(Labelings(gs))
  {
    AllValidFits(gs);
    ghost var adjs := Adjs(gs);
    ghost var ls0 := Labelings(gs);
    ghost var sigss := AllSignatures(adjs, ls0);
    ghost var done: seq<seq<string>> := [];
    var table: map<string, nat> := map[];
    var counter := base;
    var labelsInUse: set<string> := {};
    counts := [];
    var idx := 0;
    while idx < |gs|
      invariant 0 <= idx <= |gs|
      invariant AllValid(gs) && Adjs(gs) == adjs
      invariant forall k :: idx <= k < |gs| ==> gs[k].labels == ls0[k]
      invariant |done| == idx && forall k :: 0 <= k < idx ==> done[k] == gs[k].labels
      invariant (table, counter) == CompressAll(sigss[..idx], base)
      invariant Relabelled(sigss, done, table)
      invariant labelsInUse == LabelSet(done)
      invariant counts == CountsOf(done)
    {
      table, counter, labelsInUse, counts, done :=
        RefineNext(gs, idx, base, ls0, sigss, done, table, counter, labelsInUse, counts);
      idx := idx + 1;
    }
    total := base + |labelsInUse|;
    assert sigss[..|gs|] == sigss;
    RelabelledIsStep(adjs, ls0, base, done);
  }

  // ===========================================================================
  // The kernel matrix of the subtree kernel (lines 128-218)

  /**
   * Lines 157-160 for one pair: the two label vectors over the union of both
   * graphs' labels, a label a graph lacks counting 0, and their dot product.
   */
  method PairDot(c1: map<string, nat>, c2: map<string, nat>) returns (d: int)
    ensures d == CountsDot(c1, c2)
  {
    var labels := c1.Keys + c2.Keys;
    var rest := labels;
    d := 0;
    while rest != {}
      invariant rest <= labels
      invariant d + DotOver(rest, c1, c2) == DotOver(labels, c1, c2)
      decreases |rest|
    {
      var l :| l in rest;
      DotOverRemove(rest, c1, c2, l);
      d := d + Get(c1, l) * Get(c2, l);
      rest := rest - {l};
    }
  }

  /** Whether the pair {a, b} has been visited once rows < i and, in row i, columns < j are done. */
  predicate Visited(a: int, b: int, i: int, j: int)
  {
    var lo := if a <= b then a else b;
    var hi := if a <= b then b else a;
    lo < i || (lo == i && hi < j)
  }

  /**
   * Lines 155-161 (and 209-215): for i <= j the dot product is added to
   * K[i][j] and copied to K[j][i], so a symmetric matrix gains each pair's
   * dot product in both cells and stays symmetric.
   */
  method AddHeightKernel(K: array2<int>, counts: seq<map<string, nat>>)
    requires K.Length0 == |counts| && K.Length1 == |counts|
    requires forall a, b :: 0 <= a < |counts| && 0 <= b < |counts| ==> K[a, b] == K[b, a]
    modifies K
    ensures forall a, b :: 0 <= a < |counts| && 0 <= b < |counts| ==>
              K[a, b] == old(K[a, b]) + CountsDot(counts[a], counts[b])
  {
    var n := |counts|;
    var i := 0;
    while i < n
      invariant 0 <= i <= n
      invariant forall a, b :: 0 <= a < n && 0 <= b < n ==>
                  K[a, b] == old(K[a, b]) + (if Visited(a, b, i, i) then CountsDot(counts[a], counts[b]) else 0)
    {
      var j := i;
      while j < n
        invariant i <= j <= n
        invariant forall a, b :: 0 <= a < n && 0 <= b < n ==>
                    K[a, b] == old(K[a, b]) + (if Visited(a, b, i, j) then CountsDot(counts[a], counts[b]) else 0)
      {
        var d := PairDot(counts[i], counts[j]);
        CountsDotSymmetric(counts[i], counts[j]);
        K[i, j] := K[i, j] + d;
        K[j, i] := K[i, j];
        j := j + 1;
      }
      i := i + 1;
    }
  }

  /** Refinement from height h to height h + 1 of all graphs. */
  method RefineToHeight(gs: seq<LabeledGraph>, total: nat, ghost adjs: seq<seq<seq<nat>>>,
                        ghost ls0: seq<seq<string>>, ghost h: nat)
    returns (total': nat, counts: seq<map<string, nat>>)
    requires AllValid(gs) && DistinctGraphs(gs) && AllFit(adjs, ls0) && adjs == Adjs(gs)
    requires Labelings(gs) == Refined(adjs, ls0, h).labelings && total == Refined(adjs, ls0, h).total
    modifies set g | g in gs
    ensures AllValid(gs)
    ensures Labelings(gs) == Refined(adjs, ls0, h + 1).labelings && total' == Refined(adjs, ls0, h + 1).total
    ensures counts == CountsOf(Refined(adjs, ls0, h + 1).labelings)
  {
    RefinedSucc(adjs, ls0, h);
    total', counts := RefineHeight(gs, total);
  }

  /** Adds the kernel of one more layer to a matrix holding the kernel of the earlier layers. */
  method AddLayerKernel(K: array2<int>, counts: seq<map<string, nat>>,
                        ghost layers: seq<seq<seq<string>>>, ghost next: seq<seq<string>>)
    requires K.Length0 == |next| && K.Length1 == |next|
    requires counts == CountsOf(next)
    requires forall a, b :: 0 <= a < |next| && 0 <= b < |next| ==> K[a, b] == LayersKernel(layers, a, b)
    modifies K
    ensures forall a, b :: 0 <= a < |next| && 0 <= b < |next| ==> K[a, b] == LayersKernel(layers + [next], a, b)
  {
    forall a, b | 0 <= a < |next| && 0 <= b < |next| ensures K[a, b] == K[b, a] {
      LayersKernelSymmetric(layers, a, b);
    }
    AddHeightKernel(K, counts);
    forall a, b | 0 <= a < |next| && 0 <= b < |next|
      ensures K[a, b] == LayersKernel(layers + [next], a, b)
    {
      CountsDotIsMatchCount(next[a], next[b]);
      assert (layers + [next])[..|layers|] == layers;
    }
  }

  /** The heights `range(1, height + 1)` visits: none for a negative height. */
  function Heights(height: int): nat
  {
    if height < 0 then 0 else height
  }

  /**
   * Height 0 (lines 142-152): the original labels of every graph, their
   * counts, and the number of distinct labels over all graphs.
   */
  method InitialCounts(gs: seq<LabeledGraph>) returns (total: nat, counts: seq<map<string, nat>>)
    ensures total == |LabelSet(Labelings(gs))|
    ensures counts == CountsOf(Labelings(gs))
  {
    ghost var ls0 := Labelings(gs);
    var labelsInUse: set<string> := {};
    counts := [];
    var idx := 0;
    while idx < |gs|
      invariant 0 <= idx <= |gs|
      invariant labelsInUse == LabelSet(ls0[..idx])
      invariant counts == CountsOf(ls0[..idx])
    {
      var labels := gs[idx].labels;
      assert ls0[..idx + 1] == ls0[..idx] + [labels];
      LabelSetSnoc(ls0[..idx], labels);
      CountsOfSnoc(ls0[..idx], labels);
      labelsInUse := labelsInUse + set v | 0 <= v < |labels| :: labels[v];
      counts := counts + [Counts(labels)];
      idx := idx + 1;
    }
    assert ls0[..|gs|] == ls0;
    total := |labelsInUse|;
  }

  /** Height 0 of the kernel (lines 142-161): the matrix of the original labels' counts. */
  method InitialKernel(gs: seq<LabeledGraph>) returns (total: nat, K: array2<int>)
    requires AllValid(gs)
    ensures fresh(K) && K.Length0 == |gs| && K.Length1 == |gs|
    ensures total == Refined(Adjs(gs), Labelings(gs), 0).total
    ensures forall a, b :: 0 <= a < |gs| && 0 <= b < |gs| ==>
              K[a, b] == LayersKernel([Labelings(gs)], a, b)
  {
    ghost var ls0 := Labelings(gs);
    var n := |gs|;
    var counts;
    total, counts := InitialCounts(gs);
    K := new int[n, n]((a, b) => 0);
    AddLayerKernel(K, counts, [], ls0);
    assert [] + [ls0] == [ls0];
  }

  /** One height of the kernel (lines 164-215): refine every graph, then add the new layer's kernel. */
  method NextHeight(gs: seq<LabeledGraph>, K: array2<int>, total: nat, ghost adjs: seq<seq<seq<nat>>>,
                    ghost ls0: seq<seq<string>>, ghost h: nat, ghost hist: seq<seq<seq<string>>>)
    returns (total': nat, ghost hist': seq<seq<seq<string>>>)
    requires AllValid(gs) && DistinctGraphs(gs) && AllFit(adjs, ls0) && adjs == Adjs(gs)
    requires K.Length0 == |gs| && K.Length1 == |gs|
    requires Labelings(gs) == Refined(adjs, ls0, h).labelings && total == Refined(adjs, ls0, h).total
    requires hist == History(adjs, ls0, h)
    requires forall a, b :: 0 <= a < |gs| && 0 <= b < |gs| ==> K[a, b] == LayersKernel(hist, a, b)
    modifies (set g | g in gs), K
    ensures AllValid(gs)
    ensures Labelings(gs) == Refined(adjs, ls0, h + 1).labelings && total' == Refined(adjs, ls0, h + 1).total
    ensures hist' == History(adjs, ls0, h + 1)
    ensures forall a, b :: 0 <= a < |gs| && 0 <= b < |gs| ==> K[a, b] == LayersKernel(hist', a, b)
  {
    var counts;
    total', counts := RefineToHeight(gs, total, adjs, ls0, h);
    AddLayerKernel(K, counts, hist, Labelings(gs));
    hist' := hist + [Labelings(gs)];
  }

  /**
   * `_wl_subtreekernel_do`: refines all graphs in place `height` times and
   * returns the matrix whose entry (a, b) counts, over heights 0..height, the
   * pairs of a node of graph a and a node of graph b with equal labels.
   */
  method SubtreeKernel(gs: seq<LabeledGraph>, height: int) returns (K: array2<int>)
    requires AllValid(gs) && DistinctGraphs(gs)
    modifies set g | g in gs
    ensures AllValid(gs)
    ensures old(AllFit(Adjs(gs), Labelings(gs)))
    ensures fresh(K) && K.Length0 == |gs| && K.Length1 == |gs|
    ensures Labelings(gs) == Refined(Adjs(gs), old(Labelings(gs)), Heights(height)).labelings
    ensures forall a, b :: 0 <= a < |gs| && 0 <= b < |gs| ==>
              K[a, b] == KernelSum(Adjs(gs), old(Labelings(gs)), Heights(height), a, b)
  {
    AllValidFits(gs);
    ghost var adjs := Adjs(gs);
    ghost var ls0 := Labelings(gs);
    var total;
    total, K := InitialKernel(gs);
    ghost var hist := [ls0];
    var done := 0;
    while done < height
      invariant done <= Heights(height)
      invariant AllValid(gs)
      invariant Labelings(gs) == Refined(adjs, ls0, done).labelings
      invariant total == Refined(adjs, ls0, done).total
      invariant hist == History(adjs, ls0, done)
      invariant forall a, b :: 0 <= a < |gs| && 0 <= b < |gs| ==> K[a, b] == LayersKernel(hist, a, b)
    {
      total, hist := NextHeight(gs, K, total, adjs, ls0, done, hist);
      done := done + 1;
    }
    assert done == Heights(height);
  }
}
