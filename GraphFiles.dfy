/**
 * The CT connection-table reader (utils/graphfiles.py, `loadCT`), over the
 * lines of the file instead of the file itself.
 *
 * Line 0 is the graph's name; line 1 holds the node and edge counts; then
 * one line per node (its label is the fourth token) and one line per edge
 * (its two node numbers, counted from 1, are the first two tokens and its
 * integer label the fourth). The graph is a networkx `Graph`, modelled by
 * the class `CtGraph`.
 */
module GraphFiles {
  import opened Common
  import opened Text

  // ===========================================================================
  // The graph being built

  /** An undirected edge is stored once, under its two ends in increasing order. */
  function EdgeKey(a: int, b: int): (int, int)
  {
    if a <= b then (a, b) else (b, a)
  }

  /** `add_node` / `add_edge` append a node that is not yet in the graph. */
  function WithNode(nodes: seq<int>, x: int): seq<int>
  {
    if x in nodes then nodes else nodes + [x]
  }

  /** The contents of a graph: node ids in insertion order, node labels, edge labels. */
  datatype CtState = CtState(nodes: seq<int>, labels: map<int, string>, edges: map<(int, int), int>)

  /** `G.add_node(id, label=label)`. */
  function AddNodeTo(st: CtState, id: int, tag: string): CtState
  {
    CtState(WithNode(st.nodes, id), st.labels[id := tag], st.edges)
  }

  /** `G.add_edge(a, b, label=label)`: adds a missing a, then a missing b, then sets the edge's label. */
  function AddEdgeTo(st: CtState, a: int, b: int, tag: int): CtState
  {
    CtState(WithNode(WithNode(st.nodes, a), b), st.labels, st.edges[EdgeKey(a, b) := tag])
  }

  /** No node id occurs twice. */
  predicate DistinctNodes(nodes: seq<int>)
  {
    forall i, j :: 0 <= i < j < |nodes| ==> nodes[i] != nodes[j]
  }

  /** Node ids are distinct and every edge joins two nodes of the graph, its ends in increasing order. */
  predicate Consistent(st: CtState)
  {
    DistinctNodes(st.nodes) && forall k :: k in st.edges ==> k.0 <= k.1 && k.0 in st.nodes && k.1 in st.nodes
  }

  /** Appending a missing node keeps ids distinct, keeps every node and adds x. */
  lemma WithNodeSpec(nodes: seq<int>, x: int)
    requires DistinctNodes(nodes)
    ensures DistinctNodes(WithNode(nodes, x))
    ensures forall y :: y in WithNode(nodes, x) <==> y in nodes || y == x
  {
  }

  /** Adding a node keeps the graph consistent, keeps every node and adds the new one; its label is the one given. */
  lemma AddNodeSpec(st: CtState, id: int, tag: string)
    requires Consistent(st)
    ensures Consistent(AddNodeTo(st, id, tag))
    ensures forall y :: y in AddNodeTo(st, id, tag).nodes <==> y in st.nodes || y == id
    ensures AddNodeTo(st, id, tag).labels[id] == tag
  {
    WithNodeSpec(st.nodes, id);
  }

  /**
   * Adding an edge keeps node ids distinct, keeps every node, adds both ends
   * and keeps every edge between two nodes of the graph; the edge is the
   * same whichever way round its ends are given.
   */
  lemma AddEdgeSpec(st: CtState, a: int, b: int, tag: int)
    requires Consistent(st)
    ensures Consistent(AddEdgeTo(st, a, b, tag))
    ensures forall y :: y in AddEdgeTo(st, a, b, tag).nodes <==> y in st.nodes || y == a || y == b
    ensures AddEdgeTo(st, a, b, tag).edges[EdgeKey(a, b)] == tag
    ensures AddEdgeTo(st, b, a, tag).edges == AddEdgeTo(st, a, b, tag).edges
  {
    WithNodeSpec(st.nodes, a);
    WithNodeSpec(WithNode(st.nodes, a), b);
  }

  /** The networkx graph `loadCT` fills in place. */
  class CtGraph {
    var name: string
    var nodes: seq<int>
    var labels: map<int, string>
    var edges: map<(int, int), int>

    function State(): CtState
      reads this
    {
      CtState(nodes, labels, edges)
    }

    /** What networkx keeps true of a graph: distinct nodes, and edges between them. */
    predicate Valid()
      reads this
    {
      Consistent(State())
    }

    /** `nx.Graph(name=name)`. */
    constructor (name: string)
      ensures this.name == name && State() == CtState([], map[], map[]) && Valid()
    {
      this.name := name;
      nodes := [];
      labels := map[];
      edges := map[];
    }

    method AddNode(id: int, tag: string)
      requires Valid()
      modifies this
      ensures name == old(name) && State() == AddNodeTo(old(State()), id, tag) && Valid()
    {
      AddNodeSpec(State(), id, tag);
      if id !in nodes {
        nodes := nodes + [id];
      }
      labels := labels[id := tag];
    }

    method AddEdge(a: int, b: int, tag: int)
      requires Valid()
      modifies this
      ensures name == old(name) && State() == AddEdgeTo(old(State()), a, b, tag) && Valid()
    {
      AddEdgeSpec(State(), a, b, tag);
      if a !in nodes {
        nodes := nodes + [a];
      }
      if b !in nodes {
        nodes := nodes + [b];
      }
      edges := edges[EdgeKey(a, b) := tag];
    }
  }

  // ===========================================================================
  // What `loadCT` reads

  /**
   * Lines 7-13: the counts are tokens 0 and 1 of `line.split(" ")`, or
   * tokens 1 and 2 when the first piece is empty.
   */
  function HeaderCounts(line: string): Result<(int, int)>
  {
    var tmp := Split(line, ' ');
    var j := if tmp[0] == "" then 1 else 0;
    if |tmp| <= j then Err(IndexError("list index out of range"))
    else
      match ParseInt(tmp[j])
      case None => Err(ValueError(tmp[j]))
      case Some(nbNodes) =>
        if |tmp| <= j + 1 then Err(IndexError("list index out of range"))
        else
          match ParseInt(tmp[j + 1])
          case None => Err(ValueError(tmp[j + 1]))
          case Some(nbEdges) => Ok((nbNodes, nbEdges))
  }

  /** `range(0, n)` is empty for n <= 0. */
  function Count(n: int): nat
  {
    if n < 0 then 0 else n
  }

  /** Lines 15-18 for nodes 0..count-1: node i is labeled by token 3 of line i + 2. */
  function ReadNodes(lines: seq<string>, count: nat): Result<CtState>
  {
    if count == 0 then Ok(CtState([], map[], map[]))
    else
      match ReadNodes(lines, count - 1)
      case Err(e) => Err(e)
      case Ok(st) =>
        var i := count - 1;
        if i + 2 >= |lines| then Err(IndexError("list index out of range"))
        else
          var toks := Tokens(lines[i + 2]);
          if |toks| < 4 then Err(IndexError("list index out of range"))
          else Ok(AddNodeTo(st, i, toks[3]))
  }

  /**
   * Line 23 on one edge line: the two node numbers less one and the label,
   * the arguments evaluated left to right.
   */
  function EdgeLine(line: string): Result<(int, int, int)>
  {
    var toks := Tokens(line);
    if |toks| < 1 then Err(IndexError("list index out of range"))
    else
      match ParseInt(toks[0])
      case None => Err(ValueError(toks[0]))
      case Some(a) =>
        if |toks| < 2 then Err(IndexError("list index out of range"))
        else
          match ParseInt(toks[1])
          case None => Err(ValueError(toks[1]))
          case Some(b) =>
            if |toks| < 4 then Err(IndexError("list index out of range"))
            else
              match ParseInt(toks[3])
              case None => Err(ValueError(toks[3]))
              case Some(tag) => Ok((a - 1, b - 1, tag))
  }

  /** An edge line reader: `EdgeLine` for `loadCT`. */
  type EdgeParser = string -> Result<(int, int, int)>

  /** Lines 21-23: edge i is read from line `i + G.number_of_nodes() + 2`. */
  function ReadEdge(parse: EdgeParser, lines: seq<string>, st: CtState, i: nat): Result<CtState>
  {
    var idx := i + |st.nodes| + 2;
    if idx >= |lines| then Err(IndexError("list index out of range"))
    else
      match parse(lines[idx])
      case Err(e) => Err(e)
      case Ok(edge) => Ok(AddEdgeTo(st, edge.0, edge.1, edge.2))
  }

  /** Lines 20-23 for edges 0..count-1. */
  function ReadEdges(parse: EdgeParser, lines: seq<string>, st: CtState, count: nat): Result<CtState>
  {
    if count == 0 then Ok(st)
    else
      match ReadEdges(parse, lines, st, count - 1)
      case Err(e) => Err(e)
      case Ok(st') => ReadEdge(parse, lines, st', count - 1)
  }

  /** `loadCT` on the lines of a file: the graph's name and contents, or the exception raised. */
  function LoadCTSpec(lines: seq<string>): Result<(string, CtState)>
  {
    if |lines| < 2 then Err(IndexError("list index out of range"))
    else
      match HeaderCounts(lines[1])
      case Err(e) => Err(e)
      case Ok(counts) =>
        match ReadNodes(lines, Count(counts.0))
        case Err(e) => Err(e)
        case Ok(st) =>
          match ReadEdges(EdgeLine, lines, st, Count(counts.1))
          case Err(e) => Err(e)
          case Ok(st') => Ok((lines[0], st'))
  }

  // ===========================================================================
  // The reader

  /** `loadCT`: the graph is built step by step, node lines first, then edge lines. */
  method LoadCT(lines: seq<string>) returns (r: Result<CtGraph>)
    ensures r.Err? <==> LoadCTSpec(lines).Err?
    ensures r.Err? ==> r.error == LoadCTSpec(lines).error
    ensures r.Ok? ==> fresh(r.value) && r.value.name == LoadCTSpec(lines).value.0 &&
                      r.value.State() == LoadCTSpec(lines).value.1 && r.value.Valid()
  {
    if |lines| < 1 {
      return Err(IndexError("list index out of range"));
    }
    var g := new CtGraph(lines[0]);
    if |lines| < 2 {
      return Err(IndexError("list index out of range"));
    }
    var counts := ParseHeader(lines[1]);
    if counts.Err? {
      return Err(counts.error);
    }
    var failed := AddNodeLines(g, lines, Count(counts.value.0));
    if failed.Some? {
      return Err(failed.value);
    }
    failed := AddEdgeLines(g, EdgeLine, lines, Count(counts.value.1));
    if failed.Some? {
      return Err(failed.value);
    }
    r := Ok(g);
  }

  /** Lines 7-13: the counts on the second line. */
  method ParseHeader(line: string) returns (r: Result<(int, int)>)
    ensures r == HeaderCounts(line)
  {
    var tmp := Split(line, ' ');
    if tmp[0] == "" {
      if |tmp| < 2 {
        return Err(IndexError("list index out of range"));
      }
      var n := ParseInt(tmp[1]);
      if n.None? {
        return Err(ValueError(tmp[1]));
      }
      if |tmp| < 3 {
        return Err(IndexError("list index out of range"));
      }
      var m := ParseInt(tmp[2]);
      if m.None? {
        return Err(ValueError(tmp[2]));
      }
      r := Ok((n.value, m.value));
    } else {
      var n := ParseInt(tmp[0]);
      if n.None? {
        return Err(ValueError(tmp[0]));
      }
      if |tmp| < 2 {
        return Err(IndexError("list index out of range"));
      }
      var m := ParseInt(tmp[1]);
      if m.None? {
        return Err(ValueError(tmp[1]));
      }
      r := Ok((n.value, m.value));
    }
  }

  /** Lines 15-18 on an empty graph: the node lines, or the exception the first bad one raises. */
  method AddNodeLines(g: CtGraph, lines: seq<string>, count: nat) returns (failed: Option<Error>)
    requires g.State() == CtState([], map[], map[]) && g.Valid()
    modifies g
    ensures g.name == old(g.name) && g.Valid()
    ensures failed.None? <==> ReadNodes(lines, count).Ok?
    ensures failed.Some? ==> failed.value == ReadNodes(lines, count).error
    ensures failed.None? ==> g.State() == ReadNodes(lines, count).value
  {
    for i := 0 to count
      invariant g.name == old(g.name) && ReadNodes(lines, i) == Ok(g.State()) && g.Valid()
    {
      if i + 2 >= |lines| {
        NodesErr(lines, i + 1, count);
        return Some(IndexError("list index out of range"));
      }
      var toks := Tokens(lines[i + 2]);
      if |toks| < 4 {
        NodesErr(lines, i + 1, count);
        return Some(IndexError("list index out of range"));
      }
      g.AddNode(i, toks[3]);
    }
    failed := None;
  }

  /** Lines 20-23: the edge lines, each found after the graph's current node count. */
  method AddEdgeLines(g: CtGraph, parse: EdgeParser, lines: seq<string>, count: nat) returns (failed: Option<Error>)
    requires g.Valid()
    modifies g
    ensures g.name == old(g.name) && g.Valid()
    ensures failed.None? <==> ReadEdges(parse, lines, old(g.State()), count).Ok?
    ensures failed.Some? ==> failed.value == ReadEdges(parse, lines, old(g.State()), count).error
    ensures failed.None? ==> g.State() == ReadEdges(parse, lines, old(g.State()), count).value
  {
    ghost var start := g.State();
    for i := 0 to count
      invariant g.name == old(g.name) && ReadEdges(parse, lines, start, i) == Ok(g.State()) && g.Valid()
    {
      ReadEdgesStep(parse, lines, start, i, g.State());
      failed := AddEdgeLine(g, parse, lines, i);
      if failed.Some? {
        EdgesErr(parse, lines, start, i + 1, count);
        return;
      }
    }
    failed := None;
  }

  /** Lines 21-23 for edge i: the line after the current node count, parsed, then `add_edge`. */
  method AddEdgeLine(g: CtGraph, parse: EdgeParser, lines: seq<string>, i: nat) returns (failed: Option<Error>)
    requires g.Valid()
    modifies g
    ensures g.name == old(g.name) && g.Valid()
    ensures failed.None? <==> ReadEdge(parse, lines, old(g.State()), i).Ok?
    ensures failed.Some? ==> failed.value == ReadEdge(parse, lines, old(g.State()), i).error
    ensures failed.None? ==> g.State() == ReadEdge(parse, lines, old(g.State()), i).value
  {
    var idx := i + |g.nodes| + 2;
    if idx >= |lines| {
      return Some(IndexError("list index out of range"));
    }
    var edge := parse(lines[idx]);
    if edge.Err? {
      return Some(edge.error);
    }
    g.AddEdge(edge.value.0, edge.value.1, edge.value.2);
    failed := None;
  }

  /** An exception while reading node i - 1 ends the node loop with that exception. */
  lemma {:induction false} NodesErr(lines: seq<string>, i: nat, count: nat)
    requires i <= count && ReadNodes(lines, i).Err?
    ensures ReadNodes(lines, count) == ReadNodes(lines, i)
    decreases count - i
  {
    if i < count {
      NodesErr(lines, i + 1, count);
    }
  }

  /** Edge i is read from the graph the first i edges leave. */
  lemma ReadEdgesStep(parse: EdgeParser, lines: seq<string>, st: CtState, i: nat, cur: CtState)
    requires ReadEdges(parse, lines, st, i) == Ok(cur)
    ensures ReadEdges(parse, lines, st, i + 1) == ReadEdge(parse, lines, cur, i)
  {
  }

  /** An exception while reading edge i - 1 ends the edge loop with that exception. */
  lemma {:induction false} EdgesErr(parse: EdgeParser, lines: seq<string>, st: CtState, i: nat, count: nat)
    requires i <= count && ReadEdges(parse, lines, st, i).Err?
    ensures ReadEdges(parse, lines, st, count) == ReadEdges(parse, lines, st, i)
    decreases count - i
  {
    if i < count {
      EdgesErr(parse, lines, st, i + 1, count);
    }
  }

  // ===========================================================================
  // What `loadCT` promises

  /** The first piece of `line.split(" ")` is empty exactly when the line is empty or starts with a space. */
  lemma SplitFirstEmpty(line: string)
    ensures Split(line, ' ')[0] == "" <==> line == "" || line[0] == ' '
  {
    if line != "" && line[0] != ' ' {
      assert Split(line, ' ')[0] == [line[0]] + Split(line[1..], ' ')[0];
    }
  }

  /**
   * The counts are tokens 0 and 1 of the second line split at single
   * spaces, or tokens 1 and 2 when that line starts with a space or is
   * empty; a missing piece is an IndexError and a piece that is not an
   * integer a ValueError.
   */
  lemma HeaderSpec(line: string)
    ensures var tmp := Split(line, ' ');
            var j := if line == "" || line[0] == ' ' then 1 else 0;
            (HeaderCounts(line).Ok? <==> j + 1 < |tmp| && ParseInt(tmp[j]).Some? && ParseInt(tmp[j + 1]).Some?) &&
            (HeaderCounts(line).Ok? ==> HeaderCounts(line).value == (ParseInt(tmp[j]).value, ParseInt(tmp[j + 1]).value)) &&
            (HeaderCounts(line).Err? ==> HeaderCounts(line).error.IndexError? || HeaderCounts(line).error.ValueError?)
  {
    SplitFirstEmpty(line);
  }

  /**
   * An edge line is read when it has at least four tokens and tokens 0, 1
   * and 3 are integers: the edge joins nodes a - 1 and b - 1 and carries the
   * integer label. A missing token is an IndexError and a token that is not
   * an integer a ValueError.
   */
  lemma EdgeLineSpec(line: string)
    ensures var toks := Tokens(line);
            (EdgeLine(line).Ok? <==>
               |toks| >= 4 && ParseInt(toks[0]).Some? && ParseInt(toks[1]).Some? && ParseInt(toks[3]).Some?) &&
            (EdgeLine(line).Ok? ==>
               EdgeLine(line).value == (ParseInt(toks[0]).value - 1, ParseInt(toks[1]).value - 1, ParseInt(toks[3]).value)) &&
            (EdgeLine(line).Err? ==> EdgeLine(line).error.IndexError? || EdgeLine(line).error.ValueError?)
  {
  }

  /** Line i + 2 describes node i: it has at least four tokens. */
  predicate NodeLine(lines: seq<string>, i: nat)
  {
    i + 2 < |lines| && |Tokens(lines[i + 2])| >= 4
  }

  /** Node i's label: the fourth token of line i + 2, kept as a string. */
  function NodeLabel(lines: seq<string>, i: nat): string
    requires NodeLine(lines, i)
  {
    Tokens(lines[i + 2])[3]
  }

  /** The ids 0..n-1 in order. */
  function Range(n: nat): seq<int>
  {
    seq(n, i => i)
  }

  /**
   * The node loop succeeds exactly when each of lines 2..count+1 has four
   * tokens (an IndexError otherwise); it adds nodes 0..count-1 in order,
   * node i labeled by the fourth token of line i + 2, and no edge.
   */
  lemma {:induction false} ReadNodesSpec(lines: seq<string>, count: nat)
    ensures ReadNodes(lines, count).Ok? <==> forall i :: 0 <= i < count ==> NodeLine(lines, i)
    ensures ReadNodes(lines, count).Err? ==> ReadNodes(lines, count).error.IndexError?
    ensures ReadNodes(lines, count).Ok? ==>
              var st := ReadNodes(lines, count).value;
              st.nodes == Range(count) && st.edges == map[] &&
              (forall x :: x in st.labels <==> 0 <= x < count) &&
              forall i :: 0 <= i < count ==> NodeLine(lines, i) && st.labels[i] == NodeLabel(lines, i)
  {
    if count > 0 {
      ReadNodesSpec(lines, count - 1);
      if ReadNodes(lines, count - 1).Ok? {
        var st := ReadNodes(lines, count - 1).value;
        assert count - 1 !in st.nodes;
        assert Range(count - 1) + [count - 1] == Range(count);
        assert ReadNodes(lines, count).Ok? <==> NodeLine(lines, count - 1);
      } else {
        assert !NodeLine(lines, count - 1) || !forall i :: 0 <= i < count - 1 ==> NodeLine(lines, i);
      }
    }
  }

  /** Edge k of a graph with n nodes is read from line k + n + 2, and both its ends are among those nodes. */
  predicate EdgeInRange(parse: EdgeParser, lines: seq<string>, n: nat, k: nat)
  {
    k + n + 2 < |lines| && parse(lines[k + n + 2]).Ok? &&
    0 <= parse(lines[k + n + 2]).value.0 < n && 0 <= parse(lines[k + n + 2]).value.1 < n
  }

  /** The key edge k is stored under. */
  function KeyAt(parse: EdgeParser, lines: seq<string>, n: nat, k: nat): (int, int)
    requires EdgeInRange(parse, lines, n, k)
  {
    var e := parse(lines[k + n + 2]).value;
    EdgeKey(e.0, e.1)
  }

  /** The label edge k carries. */
  function TagAt(parse: EdgeParser, lines: seq<string>, n: nat, k: nat): int
    requires EdgeInRange(parse, lines, n, k)
  {
    parse(lines[k + n + 2]).value.2
  }

  /** Some edge among the first count is stored under key. */
  predicate KeyRead(parse: EdgeParser, lines: seq<string>, n: nat, count: nat, key: (int, int))
  {
    exists k :: 0 <= k < count && EdgeInRange(parse, lines, n, k) && KeyAt(parse, lines, n, k) == key
  }

  /** The keys read by the first count edges are those of the first count - 1 and that of edge count - 1. */
  lemma KeyReadStep(parse: EdgeParser, lines: seq<string>, n: nat, count: nat, key: (int, int))
    requires count > 0 && EdgeInRange(parse, lines, n, count - 1)
    ensures KeyRead(parse, lines, n, count, key) <==>
              KeyRead(parse, lines, n, count - 1, key) || KeyAt(parse, lines, n, count - 1) == key
  {
    if KeyRead(parse, lines, n, count, key) {
      var k :| 0 <= k < count && EdgeInRange(parse, lines, n, k) && KeyAt(parse, lines, n, k) == key;
      if k < count - 1 {
        assert KeyRead(parse, lines, n, count - 1, key);
      }
    }
    if KeyRead(parse, lines, n, count - 1, key) {
      var k :| 0 <= k < count - 1 && EdgeInRange(parse, lines, n, k) && KeyAt(parse, lines, n, k) == key;
      assert KeyRead(parse, lines, n, count, key);
    }
  }

  /** Reading edge i into a graph that already holds both of its ends adds no node. */
  lemma ReadEdgeInRange(parse: EdgeParser, lines: seq<string>, cur: CtState, n: nat, i: nat)
    requires cur.nodes == Range(n) && EdgeInRange(parse, lines, n, i)
    ensures ReadEdge(parse, lines, cur, i) ==
              Ok(CtState(cur.nodes, cur.labels, cur.edges[KeyAt(parse, lines, n, i) := TagAt(parse, lines, n, i)]))
  {
    var e := parse(lines[i + n + 2]).value;
    assert cur.nodes[e.0] == e.0 && cur.nodes[e.1] == e.1;
  }

  /**
   * The edge labels the first count edge lines give, a later line
   * overriding an earlier one for the same edge (a line that does not name
   * two of the n nodes is passed over).
   */
  function EdgesRead(parse: EdgeParser, lines: seq<string>, n: nat, count: nat): map<(int, int), int>
  {
    if count == 0 then map[]
    else if EdgeInRange(parse, lines, n, count - 1) then
      EdgesRead(parse, lines, n, count - 1)[KeyAt(parse, lines, n, count - 1) := TagAt(parse, lines, n, count - 1)]
    else EdgesRead(parse, lines, n, count - 1)
  }

  /**
   * When every edge line names two of the n nodes already read, the edge
   * loop adds no node, and edge k is read from line k + n + 2.
   */
  lemma {:induction false} ReadEdgesInRange(parse: EdgeParser, lines: seq<string>, st: CtState, count: nat)
    requires st.nodes == Range(|st.nodes|) && st.edges == map[]
    requires forall k :: 0 <= k < count ==> EdgeInRange(parse, lines, |st.nodes|, k)
    ensures ReadEdges(parse, lines, st, count) == Ok(CtState(st.nodes, st.labels, EdgesRead(parse, lines, |st.nodes|, count)))
  {
    if count > 0 {
      ReadEdgesInRange(parse, lines, st, count - 1);
      ReadEdgesInRangeStep(parse, lines, st, count);
    }
  }

  /** One more edge line naming two of the n nodes adds its edge to those read so far. */
  lemma {:induction false} ReadEdgesInRangeStep(parse: EdgeParser, lines: seq<string>, st: CtState, count: nat)
    requires count > 0 && st.nodes == Range(|st.nodes|) && EdgeInRange(parse, lines, |st.nodes|, count - 1)
    requires ReadEdges(parse, lines, st, count - 1) == Ok(CtState(st.nodes, st.labels, EdgesRead(parse, lines, |st.nodes|, count - 1)))
    ensures ReadEdges(parse, lines, st, count) == Ok(CtState(st.nodes, st.labels, EdgesRead(parse, lines, |st.nodes|, count)))
  {
    var cur := CtState(st.nodes, st.labels, EdgesRead(parse, lines, |st.nodes|, count - 1));
    ReadEdgesStep(parse, lines, st, count - 1, cur);
    ReadEdgeInRange(parse, lines, cur, |st.nodes|, count - 1);
  }

  /** An edge is stored exactly when one of the edge lines names it. */
  lemma {:induction false} EdgesReadKeys(parse: EdgeParser, lines: seq<string>, n: nat, count: nat)
    requires forall k :: 0 <= k < count ==> EdgeInRange(parse, lines, n, k)
    ensures forall key :: key in EdgesRead(parse, lines, n, count) <==> KeyRead(parse, lines, n, count, key)
  {
    if count > 0 {
      EdgesReadKeys(parse, lines, n, count - 1);
      forall key
        ensures key in EdgesRead(parse, lines, n, count) <==> KeyRead(parse, lines, n, count, key)
      {
        KeyReadStep(parse, lines, n, count, key);
      }
    }
  }

  /** No edge line after edge k, among the first count, names the same edge. */
  predicate LastNaming(parse: EdgeParser, lines: seq<string>, n: nat, count: nat, k: nat)
  {
    EdgeInRange(parse, lines, n, k) &&
    forall k' :: k < k' < count && EdgeInRange(parse, lines, n, k') ==> KeyAt(parse, lines, n, k') != KeyAt(parse, lines, n, k)
  }

  /** Each edge line's edge is stored, with that line's label unless a later line names the same edge. */
  lemma {:induction false} EdgesReadTags(parse: EdgeParser, lines: seq<string>, n: nat, count: nat)
    requires forall k :: 0 <= k < count ==> EdgeInRange(parse, lines, n, k)
    ensures forall k :: 0 <= k < count ==>
              KeyAt(parse, lines, n, k) in EdgesRead(parse, lines, n, count) &&
              (LastNaming(parse, lines, n, count, k) ==>
                 EdgesRead(parse, lines, n, count)[KeyAt(parse, lines, n, k)] == TagAt(parse, lines, n, k))
  {
    if count > 0 {
      EdgesReadTags(parse, lines, n, count - 1);
      var last := KeyAt(parse, lines, n, count - 1);
      forall k | 0 <= k < count - 1 && LastNaming(parse, lines, n, count, k)
        ensures EdgesRead(parse, lines, n, count)[KeyAt(parse, lines, n, k)] == TagAt(parse, lines, n, k)
      {
        assert last != KeyAt(parse, lines, n, k);
        assert LastNaming(parse, lines, n, count - 1, k);
      }
    }
  }

  /**
   * `loadCT` names the graph after the first line. When the counts on the
   * second line are n >= 0 and m, lines 2..n+1 each have four tokens, and
   * each of the next m lines names two of nodes 1..n, the graph has nodes
   * 0..n-1 in order, node i labeled by the fourth token of line i + 2, and
   * the edges those m lines give, their node numbers less one.
   */
  lemma LoadCTSpecWellFormed(lines: seq<string>, n: int, m: int)
    requires |lines| >= 2 && HeaderCounts(lines[1]) == Ok((n, m)) && n >= 0
    requires forall i :: 0 <= i < n ==> NodeLine(lines, i)
    requires forall k :: 0 <= k < Count(m) ==> EdgeInRange(EdgeLine, lines, n, k)
    ensures LoadCTSpec(lines).Ok?
    ensures LoadCTSpec(lines).value.0 == lines[0]
    ensures var st := LoadCTSpec(lines).value.1;
            st.nodes == Range(n) &&
            (forall x :: x in st.labels <==> 0 <= x < n) &&
            (forall i :: 0 <= i < n ==> NodeLine(lines, i) && st.labels[i] == NodeLabel(lines, i)) &&
            (forall key :: key in st.edges <==> KeyRead(EdgeLine, lines, n, Count(m), key)) &&
            forall k :: 0 <= k < Count(m) && LastNaming(EdgeLine, lines, n, Count(m), k) ==>
              st.edges[KeyAt(EdgeLine, lines, n, k)] == TagAt(EdgeLine, lines, n, k)
  {
    ReadNodesSpec(lines, n);
    var st := ReadNodes(lines, n).value;
    assert |st.nodes| == n;
    ReadEdgesInRange(EdgeLine, lines, st, Count(m));
    EdgesReadKeys(EdgeLine, lines, n, Count(m));
    EdgesReadTags(EdgeLine, lines, n, Count(m));
  }
}
