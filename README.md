# why-rs causal-graph core in Dafny

This project models the data and parsing core of why-rs, a tool for drawing and analysing causal
diagrams written in the dagitty language. Four source files are modelled:

- `why-data/src/types.rs`: the copyable 2D `Point`.
- `why-data/src/graph/dagitty.rs`: the node and edge payloads, namely `VertexType`, `EdgeType`,
  `NodeInfo::new` with its HTML path id, and `EdgeInfo::new`.
- `why-data/src/graph/mod.rs`: the `CausalGraph` façade over petgraph, which is a `Dag` or an
  `Ungraph`, plus `add_edges` and the lazy, non-recursive `Ancestors` iterator.
  - `Ancestors` is a class whose `Next` method updates `visited` and `pendingNeighbors` in place, as
    the Rust iterator does.
  - It is proved sound and complete against a reference definition of backward reachability: a
    node is yielded exactly when it has a backward path to the start node, and each node at most once.
  - A walk from an existing node yields at most the node count minus one items.
  - After `None` there is no pending cursor left, and every later call returns `None`.
- `why-parser/src/dagitty/mod.rs`: the interpretation of a parsed dagitty graph.
  - Attribute lists are flattened into `(key, value)` sequences.
  - The alias table maps attribute keys to vertex types; the last recognised key wins.
  - `pos` values are split at the first comma.
  - The consuming `CausalGraphBuilder`, and `parse_stmt`, `parse_stmts` and `parse_str`.

Files: `wrappers.dfy` (Option and Result), `types.dfy`, `dagitty_data.dfy`, `graph.dfy`,
`dagitty_parser.dfy`.

How the model treats the source:

- pest parse trees are input datatypes. `AListPair` and `AttrListPair` are the cons-shaped
  `a_list` and `attr_list` pairs. `StmtList` is the `stmts` chain, and `DagittyGraph` holds the
  optional `STRICT`, the graph-type keyword and the statements.
- Rust's `f64` is `real`. `str::parse::<f64>` is a parameter `num: string -> Option<real>`. The
  facts used about it are in `FloatSyntax`: the empty string, and any text starting with `,` or `"`,
  do not parse.
- petgraph's `neighbors_directed(v, Incoming)` is the list `Incoming(ty, g, v)`.
  - In a directed graph it is the sources of the edges entering `v`, newest edge first.
  - In an undirected graph it is the targets of the edges leaving `v`, then the sources of the
    edges entering it, with self-loops counted once.
  - A detached `WalkNeighbors` is a `Cursor(node, pos)` into that list.
- On the `pos` attribute the model follows the code, not the documented intent. The intent is that
  the quotes around `pos="x,y"` are stripped and both numbers are read. The code does neither:
  - x is the text before the first comma, and y is the rest with the comma still in it;
  - the quotes stay in the value.

  So in the model, as in the code, every quoted dagitty position becomes (0.0, 0.0)
  (`QuotedPosIsOrigin`). This includes every node of the crate's `BASE_DAG_STR`.

## Model

| member | source | states |
|---|---|---|
| Types.Point.New | why-data/src/types.rs:10-12 | the new point's `x()` and `y()` give back the two arguments |
| Types.PointEquality | why-data/src/types.rs:2-6 | the derived equality: two points are equal exactly when both coordinates are |
| Types.NewOfAccessors | why-data/src/types.rs:14-22 | the accessors leave a point intact: rebuilding it from `x()` and `y()` gives the same point |
| DagittyData.AllVertexTypes | why-data/src/graph/dagitty.rs:5-19 | the list of vertex types has six entries, all distinct |
| DagittyData.VertexTypeExhaustive | why-data/src/graph/dagitty.rs:5-19 | every vertex type is one of those six |
| DagittyData.AllEdgeTypes | why-data/src/graph/dagitty.rs:21-30 | the list of edge types has three entries, all distinct |
| DagittyData.EdgeTypeExhaustive | why-data/src/graph/dagitty.rs:21-30 | every edge type is one of those three |
| DagittyData.NodeInfo.New | why-data/src/graph/dagitty.rs:45-59 | keeps the id verbatim, the position as `Point(x, y)` and the type; the path id is `"node_path_id_"` followed by the id |
| DagittyData.PathIdSplits | why-data/src/graph/dagitty.rs:46-57 | the path id starts with the prefix, and the text after the prefix is exactly the node id |
| DagittyData.PathIdInjective | why-data/src/graph/dagitty.rs:53-57 | nodes with equal path ids have equal ids |
| DagittyData.EdgeInfo.New | why-data/src/graph/dagitty.rs:73-81 | stores the id, the optional position and the edge type unchanged |
| Graph.CausalGraph.AddNode | why-data/src/graph/mod.rs:33-38 | keeps the `Dag`/`Ungraph` tag; appends exactly the node `n` and returns its index, the old node count; edges unchanged; well-formedness kept |
| Graph.CausalGraph.AddEdge | why-data/src/graph/mod.rs:40-46 | keeps the tag; appends exactly the edge `left -> right` and returns its index, the old edge count; nodes unchanged; well-formedness kept |
| Graph.AddEdges | why-data/src/graph/mod.rs:122-126 | the nodes are unchanged, the old edges are a prefix, and the k-th new edge is the k-th item, in iteration order |
| Graph.IncomingSourcesMembers | why-data/src/graph/mod.rs:74 | a node is in the incoming list of `v` exactly when some edge runs from it into `v` (self-loops excluded where petgraph skips them) |
| Graph.OutgoingTargetsMembers | why-data/src/graph/mod.rs:74 | a node is in the outgoing list of `v` exactly when some edge runs from `v` to it |
| Graph.IncomingIsBackEdge | why-data/src/graph/mod.rs:94-95 | a node is in the list a cursor of `v` walks exactly when it is one backward step from `v`, in both graph kinds |
| Graph.ReachableStep | why-data/src/graph/mod.rs:101-103 | one more backward step from a reachable node reaches another node |
| Graph.ClosedHoldsReachable | why-data/src/graph/mod.rs:51-52 | a set holding the start node and closed under backward steps holds every node reachable from the start |
| Graph.StepScanned | why-data/src/graph/mod.rs:93-106 | one round of the outer loop of `next` keeps the walk invariant, whether the popped cursor found a node or was dropped |
| Graph.WalkSound | why-data/src/graph/mod.rs:94-104 | everything yielded so far is an ancestor of the start node |
| Graph.WalkComplete | why-data/src/graph/mod.rs:89-110 | with no pending cursor, the yielded nodes are exactly the ancestors of the start node |
| Graph.VisitedInRange | why-data/src/graph/mod.rs:95-97 | the visited nodes are the start node and existing nodes, so there are at most the node count plus one of them |
| Graph.YieldBound | why-data/src/graph/mod.rs:93-109 | a walk from an existing node yields at most the node count minus one items |
| Graph.NextUnvisited | why-data/src/graph/mod.rs:94-99 | the cursor moves past visited neighbours only, and stops right after the first unvisited one, or at the end of the list when there is none |
| Graph.Ancestors.constructor | why-data/src/graph/mod.rs:70-76 | `ancestors(node)`: `visited` is `{node}` and there is one pending cursor, at the head of `node`'s incoming list; the walk invariant holds |
| Graph.Ancestors.Next | why-data/src/graph/mod.rs:88-110 | keeps the walk invariant. With no pending cursor it returns `None`. A `Some` is a node not visited before and an ancestor of the start; that node is added to `visited` and to the yielded list. On `None` nothing changes, no cursor is left, and the yielded nodes are exactly the ancestors. After a `Some`, the cursors below the one that found it keep their order, that cursor (advanced) is at the front and a fresh cursor for the found node at the back |
| Graph.Ancestors.YieldedSoundAndBounded | why-data/src/graph/mod.rs:93-109 | in any state: no node is yielded twice, the start node is never yielded, everything yielded is an ancestor, and at most the node count minus one nodes are yielded |
| Graph.CollectAncestors | why-data/src/graph/mod.rs:153-155 | collecting the iterator into a set gives exactly the ancestor set |
| Graph.TestGraph | why-data/src/graph/mod.rs:135-147 | the test graph has five nodes and only edges between them |
| Graph.TestGraphAncestors | why-data/src/graph/mod.rs:149-155 | in the test graph, A has no ancestors and Z's ancestors are exactly {A, B} |
| Graph.TestAncestors | why-data/src/graph/mod.rs:134-156 | `test_ancestors`: the first `next` from A is `None`, and collecting the walk from Z gives {A, B} |
| DagittyParser.ItemAttr | why-parser/src/dagitty/mod.rs:178-185 | an `id_eq` item gives `(id1, id2)` verbatim; a bare id gives `(id, "")` |
| DagittyParser.AListParse | why-parser/src/dagitty/mod.rs:172-201 | `AList::parse`: one pair per item of the chain, in chain order, each as `ItemAttr` gives it |
| DagittyParser.AListRoundTrip | why-parser/src/dagitty/mod.rs:186-195 | parsing the chain built from any non-empty pair sequence gives that sequence back |
| DagittyParser.SampleAListParse | why-parser/src/dagitty/mod.rs:273-282 | `test_parse_a_list`: `selected,pos="-2.200,-1.520"` gives `("selected", "")` and `("pos", "\"-2.200,-1.520\"")` |
| DagittyParser.AttrListParse | why-parser/src/dagitty/mod.rs:141-161 | `AttrList::parse`: one `AList` per bracket list, in source order |
| DagittyParser.AttrListRoundTrip | why-parser/src/dagitty/mod.rs:146-160 | parsing the chain built from any non-empty sequence of lists gives those lists back |
| DagittyParser.SampleAttrListParse | why-parser/src/dagitty/mod.rs:285-294 | `test_parse_attr_list`: the first list of `[selected,pos="-2.200,-1.520"]` holds the same two pairs |
| DagittyParser.FlattenSnoc | why-parser/src/dagitty/mod.rs:41-42 | the attributes of the first i + 1 lists are those of the first i, followed by list i's |
| DagittyParser.AliasType | why-parser/src/dagitty/mod.rs:43-62 | the alias table never yields `VertexType::None` |
| DagittyParser.AliasTable | why-parser/src/dagitty/mod.rs:43-62 | both directions for each type: {adjusted, a} Adjusted, {source, exposure, e} Exposure, {outcome, target, o} Outcome, {selected, s} Selected, {latent, l, unobserved, u} Unobserved; every other key gives no type |
| DagittyParser.PosIsNoAlias | why-parser/src/dagitty/mod.rs:55 | `pos` is not a type key |
| DagittyParser.FindComma | why-parser/src/dagitty/mod.rs:56 | `find(',')`: none exactly when there is no comma; otherwise the index of the first comma |
| DagittyParser.PosParts | why-parser/src/dagitty/mod.rs:56 | the two parts concatenate to the value. With no comma the first part is empty. Otherwise the first part has no comma and the second starts with the comma |
| DagittyParser.PosValueParts | why-parser/src/dagitty/mod.rs:57-60 | each coordinate is its part parsed, or 0.0 when it does not parse; never an error |
| DagittyParser.PosWithCommaHasZeroY | why-parser/src/dagitty/mod.rs:56-60 | with a comma in the value, y is always 0.0 |
| DagittyParser.PosWithoutComma | why-parser/src/dagitty/mod.rs:56-60 | without a comma, x is 0.0 and y is the whole value parsed |
| DagittyParser.QuotedPosIsOrigin | why-parser/src/dagitty/mod.rs:55-61 | a dagitty position `"x,y"`, quotes included, gives (0.0, 0.0) whatever x and y are |
| DagittyParser.LastTypeSnoc | why-parser/src/dagitty/mod.rs:43-54 | one more attribute: a type key overrides the type, any other key keeps it |
| DagittyParser.LastPosSnoc | why-parser/src/dagitty/mod.rs:55-62 | one more attribute: a `pos` key sets the position from its value, any other key keeps it |
| DagittyParser.LastRecognisedKeyWins | why-parser/src/dagitty/mod.rs:40-66 | if the k-th attribute is a type key and no later one is, the node gets the k-th key's type |
| DagittyParser.NoRecognisedKey | why-parser/src/dagitty/mod.rs:29-66 | with no type key among the attributes, the type stays at its initial value |
| DagittyParser.LastPosWins | why-parser/src/dagitty/mod.rs:40-66 | the last `pos` attribute decides the position |
| DagittyParser.NoPosKey | why-parser/src/dagitty/mod.rs:30-66 | with no `pos` attribute, the position stays at its initial value |
| DagittyParser.NodeDefaults | why-parser/src/dagitty/mod.rs:29-67 | a node without attribute list gets its id, `VertexType::None` and position (0.0, 0.0) |
| DagittyParser.ScanAttr | why-parser/src/dagitty/mod.rs:43-62 | one arm of the match takes the type and position of the attributes scanned so far to those of the list extended by one attribute |
| DagittyParser.ScanAList | why-parser/src/dagitty/mod.rs:42-64 | the inner loop takes the type and position of the attributes scanned so far to those of the list extended by one whole bracket list |
| DagittyParser.ParseNode | why-parser/src/dagitty/mod.rs:25-71 | as intended, through `CausalGraphBuilder.AddNode`: always succeeds, and the builder gains exactly one node: the statement's id, with the last type key's type and the last `pos`'s position |
| DagittyParser.CausalGraphBuilder.New | why-parser/src/dagitty/mod.rs:209-211 | a new builder holds no graph |
| DagittyParser.CausalGraphBuilder.Dag | why-parser/src/dagitty/mod.rs:213-217 | replaces whatever is held with an empty `Dag` |
| DagittyParser.CausalGraphBuilder.Graph | why-parser/src/dagitty/mod.rs:219-223 | replaces whatever is held with an empty `Ungraph` |
| DagittyParser.CausalGraphBuilder.AddNode | why-parser/src/dagitty/mod.rs:225-227 | as intended: the held graph keeps its tag and edges and gains exactly the node `n` |
| DagittyParser.CausalGraphBuilder.Build | why-parser/src/dagitty/mod.rs:229-231 | returns the held graph, which must be set |
| DagittyParser.AddNodeAsWrittenNeverReturns | why-parser/src/dagitty/mod.rs:225-227 | as written, `add_node` returns at no recursion depth |
| DagittyParser.SelectGraphType | why-parser/src/dagitty/mod.rs:122-126 | succeeds exactly for digraph, dag, graph, mag, pdag and pag, with an empty graph that is a `Dag` exactly for digraph and dag; any other keyword is `UnknownGraphType` |
| DagittyParser.ParseEdge | why-parser/src/dagitty/mod.rs:18-23 | succeeds and returns the builder unchanged: no node, no edge |
| DagittyParser.ParseStmt | why-parser/src/dagitty/mod.rs:73-92 | as intended, through `CausalGraphBuilder.AddNode`: a node statement adds its node, an edge statement changes nothing, any other rule is `UnexpectedRule` |
| DagittyParser.ParseStmts | why-parser/src/dagitty/mod.rs:93-108 | as intended, through `CausalGraphBuilder.AddNode`: head first, then tail. It succeeds exactly when every statement is a node or an edge. The tag is kept, the declared nodes are appended in order and no edge is added. On failure the error names the first other rule |
| DagittyParser.StmtsDeclare | why-parser/src/dagitty/mod.rs:97-104 | a list of node statements followed by edge statements is accepted and declares the nodes of the node statements, in order |
| DagittyParser.ParseStr | why-parser/src/dagitty/mod.rs:111-131 | as intended: it succeeds exactly for a known keyword and supported statements. The kind follows the keyword. The nodes are the declared ones, there are no edges, and the errors are as above; `STRICT` has no effect |
| DagittyParser.ParseStrAsWritten | why-parser/src/dagitty/mod.rs:128 | as written: the outcome is that of an empty statement list, so a successful parse has no nodes |
| DagittyParser.TypedPosNode | why-parser/src/dagitty/mod.rs:43-61 | a node `id [key,pos="x,y"]` with a type key gets the key's type and position (0.0, 0.0) |
| DagittyParser.PosNode | why-parser/src/dagitty/mod.rs:55-62 | a node `id [pos="x,y"]` gets `VertexType::None` and position (0.0, 0.0) |
| DagittyParser.FixtureKeys | why-parser/src/dagitty/mod.rs:44-51 | selected, outcome, exposure and adjusted select their types |
| DagittyParser.BaseDagA | why-parser/src/dagitty/mod.rs:240 | node A of `BASE_DAG_STR` is Selected at (0.0, 0.0) |
| DagittyParser.BaseDagB | why-parser/src/dagitty/mod.rs:241 | node B is None at (0.0, 0.0) |
| DagittyParser.BaseDagD | why-parser/src/dagitty/mod.rs:242 | node D is Outcome at (0.0, 0.0) |
| DagittyParser.BaseDagE | why-parser/src/dagitty/mod.rs:243 | node E is Exposure at (0.0, 0.0) |
| DagittyParser.BaseDagZ | why-parser/src/dagitty/mod.rs:244 | node Z is Adjusted at (0.0, 0.0) |
| DagittyParser.BaseDagNodes | why-parser/src/dagitty/mod.rs:239-250 | `BASE_DAG_STR` is accepted and declares A, B, D, E, Z in order, typed Selected, None, Outcome, Exposure, Adjusted |
| DagittyParser.BaseDagBothWays | why-parser/src/dagitty/mod.rs:239-250 | `BASE_DAG_STR` parsed as written is a `Dag` with no nodes; parsed as intended it is a `Dag` with the five declared nodes |

## Left out

- UI, layout and geometry code (`why-ui`, `src/*`, the `bounds` modules): it is DOM and signal plumbing and floating-point arithmetic, not part of this model.
- `futures_signals::Mutable` cells are plain fields; change notification is UI plumbing.
- The pest grammar `dagitty.pest` is not part of this model. Parse trees are input datatypes, so syntax errors from `DagittyParser::parse` do not arise. The `assert!`s on the rule kinds and the `unwrap`s on children hold by construction.
- `AList::parse` and `AttrList::parse` cannot fail in the source, so the model makes them total. The "tail fails, use an empty vector" fallback therefore has no case.
- `unreachable!` in `parse_stmt` and `parse_str` becomes an error value, `UnexpectedRule` or `UnknownGraphType`, instead of a panic.
- `f64` parsing is the parameter `num`. Only the split and the 0.0 default are verified, not float syntax; the facts assumed about `num` are in `FloatSyntax`.
- `str::find` returns a byte index and `split_at` splits at a byte. The model indexes characters; the two agree because `,` is one byte.
- petgraph itself is not part of this model. Its `Graph` is a node sequence and an edge sequence with unbounded `nat` indices, so the `u32` index limit and its panic are not modelled. The `add_edge` panic on a missing endpoint is a precondition. The order of `neighbors_directed` (newest edge first) follows petgraph's documented behaviour.
- Graph.CausalGraph.AddNode and Graph.CausalGraph.AddEdge: the `&mut self` update of the enum is a function returning the new value and the index, because `CausalGraph` is also held by value inside the consuming builder. Graph.AddEdges likewise returns the updated graph instead of changing it in place.
- Graph.Ancestors: the graph reference is an immutable field. The `yielded` list exists only for the proof. `WalkNeighbors::next`'s edge index is dropped, keeping only the neighbour. `Debug` formatting is omitted.
- DagittyParser.CausalGraphBuilder.AddNode: models the evident intent, not the unbounded recursion of the code (see Findings). It requires a held graph because the intended call unwraps it.
- DagittyParser.ParseNode, DagittyParser.ParseStmt and DagittyParser.ParseStmts: they add nodes through the corrected `CausalGraphBuilder.AddNode`; as written, `parse_node` calls the recursive `add_node` (why-parser/src/dagitty/mod.rs:68) and never returns, which the model does not mirror (see Findings).
- DagittyParser.ParseStr: the `strict` flag is read and ignored, as in the code.
- Serialisation back to dagitty text, multi-hop edges, edge operators and dropping edges with an undeclared endpoint are not in the code (`parse_edge` is a stub), so they are not modelled.

## Findings

| source | as written | input that shows it | evidently intended | confidence | as-written member | corrected member |
|---|---|---|---|---|---|---|
| why-parser/src/dagitty/mod.rs:225-227 | `add_node` calls the builder's own `graph()`, which resets it to an empty `Ungraph`, and then calls `add_node` on the result: itself, without end | any node statement that reaches `parse_node` (mod.rs:68 calls `add_node`); as written `parse_str` never gets there (mod.rs:128) | add the node to the held graph and return the builder | high; not executed | DagittyParser.AddNodeAsWrittenNeverReturns | DagittyParser.CausalGraphBuilder.AddNode |
| why-parser/src/dagitty/mod.rs:128 | `parse_stmts` is handed the graph-type keyword's pair, whose text is just `dag`, so no statement is applied | `BASE_DAG_STR` (why-parser/src/dagitty/mod.rs:239-250): a `Dag` with no nodes instead of A, B, D, E, Z | hand `parse_stmts` the statement list that follows the keyword | medium, since the grammar is not shown; not executed | DagittyParser.ParseStrAsWritten | DagittyParser.ParseStr |
