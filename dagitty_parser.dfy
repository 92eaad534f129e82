/** why-parser's `dagitty` module: turning a dagitty parse tree into a `CausalGraph` of `NodeInfo` and
    `EdgeInfo`. The pest grammar is not part of this model: the parse trees it produces are taken as
    input datatypes, with one constructor per rule shape the code inspects. `f64::parse` is the
    parameter `num`. */
module DagittyParser {
  import opened Wrappers
  import opened Types
  import opened DagittyData
  import CG = Graph

  // ---------------------------------------------------------------------------------------------
  // Parse trees
  // ---------------------------------------------------------------------------------------------

  /** One attribute as the code keeps it: key and value, both as written in the input. */
  type Attr = (string, string)

  /** The first child of an `a_list` pair: an `id_eq` (`key=value`) or a bare identifier. */
  datatype AItem = IdEq(key: string, value: string) | Bare(id: string)

  /** An `a_list` pair: one item and, optionally, the `a_list` holding the rest. */
  datatype AListPair = AListPair(item: AItem, tail: Option<AListPair>)

  /** An `attr_list` pair: one bracketed `a_list` and, optionally, the `attr_list` holding the rest. */
  datatype AttrListPair = AttrListPair(head: AListPair, tail: Option<AttrListPair>)

  /** A `node_stmt` pair: the text of the node id and the optional attribute list. */
  datatype NodeStmt = NodeStmt(id: string, attrs: Option<AttrListPair>)

  /** The child of a `stmt` pair, by rule: a node statement, an edge statement (only its text is kept,
      since it is never looked at), or any other rule. */
  datatype Stmt = Node(node: NodeStmt) | EdgeStmt(text: string) | OtherStmt(rule: string)

  /** A statement-list pair: empty, or a statement followed by the pair holding the rest. */
  datatype StmtList = EmptyStmts | StmtCons(head: Stmt, tail: StmtList)

  /** The `dagitty_graph` pair: an optional `STRICT`, the graph-type keyword, and the statements. */
  datatype DagittyGraph = DagittyGraph(strict: bool, graphType: string, stmts: StmtList)

  /** What the parse functions report instead of a graph. The source panics in both cases
      (`unreachable!`); the model makes them error values. */
  datatype ParseError = UnknownGraphType(keyword: string) | UnexpectedRule(rule: string)

  // ---------------------------------------------------------------------------------------------
  // `AList::parse` and `AttrList::parse`
  // ---------------------------------------------------------------------------------------------

  /** `AList`: the attributes of one bracketed list, in order. */
  datatype AList = AList(elems: seq<Attr>)

  /** `AttrList`: the bracketed lists of one statement, in order. */
  datatype AttrList = AttrList(elems: seq<AList>)

  /** The attribute an item stands for: `key=value` verbatim (quotes kept), a bare id with value "". */
  function ItemAttr(item: AItem): (a: Attr)
    ensures item.IdEq? ==> a == (item.key, item.value)
    ensures item.Bare? ==> a == (item.id, "")
  {
    match item
    case IdEq(k, v) => (k, v)
    case Bare(id) => (id, "")
  }

  /** Number of items in an `a_list` tree. */
  function ItemCount(t: AListPair): nat {
    1 + if t.tail.Some? then ItemCount(t.tail.value) else 0
  }

  /** The `k`-th item of an `a_list` tree, counting from the outermost. */
  function ItemAt(t: AListPair, k: nat): AItem
    requires k < ItemCount(t)
  {
    if k == 0 then t.item else ItemAt(t.tail.value, k - 1)
  }

  /** `AList::parse`: the head item's attribute followed by the tail's attributes. A nested parse never
      fails, so the `unwrap_or(Vec::new())` fallback is never taken. */
  function AListParse(t: AListPair): (r: AList)
    ensures |r.elems| == ItemCount(t)
    ensures forall k :: 0 <= k < |r.elems| ==> r.elems[k] == ItemAttr(ItemAt(t, k))
  {
    var tail := if t.tail.Some? then AListParse(t.tail.value).elems else [];
    AList([ItemAttr(t.item)] + tail)
  }

  /** A tree that writes every attribute as `key=value`. */
  function AListOf(attrs: seq<Attr>): (t: AListPair)
    requires |attrs| > 0
    decreases |attrs|
  {
    var item := IdEq(attrs[0].0, attrs[0].1);
    if |attrs| == 1 then AListPair(item, Option.None) else AListPair(item, Some(AListOf(attrs[1..])))
  }

  /** Parsing a tree built from a non-empty attribute sequence gives the sequence back. */
  lemma {:induction false} AListRoundTrip(attrs: seq<Attr>)
    requires |attrs| > 0
    ensures AListParse(AListOf(attrs)).elems == attrs
    decreases |attrs|
  {
    if |attrs| > 1 {
      AListRoundTrip(attrs[1..]);
      assert attrs == [attrs[0]] + attrs[1..];
    }
  }

  /** The module's `test_parse_a_list`: `selected,pos="-2.200,-1.520"`. */
  function SampleAList(): AListPair {
    AListPair(Bare("selected"), Some(AListPair(IdEq("pos", "\"-2.200,-1.520\""), Option.None)))
  }

  lemma SampleAListParse()
    ensures AListParse(SampleAList()).elems == [("selected", ""), ("pos", "\"-2.200,-1.520\"")]
  {
    var t := SampleAList();
    assert ItemCount(t) == 2;
    assert ItemAt(t, 1) == IdEq("pos", "\"-2.200,-1.520\"");
  }

  /** Number of bracketed lists in an `attr_list` tree. */
  function ListCount(t: AttrListPair): nat {
    1 + if t.tail.Some? then ListCount(t.tail.value) else 0
  }

  /** The `k`-th bracketed list of an `attr_list` tree. */
  function ListAt(t: AttrListPair, k: nat): AListPair
    requires k < ListCount(t)
  {
    if k == 0 then t.head else ListAt(t.tail.value, k - 1)
  }

  /** `AttrList::parse`: the head's `AList` followed by the tail's, in source order. */
  function AttrListParse(t: AttrListPair): (r: AttrList)
    ensures |r.elems| == ListCount(t)
    ensures forall k :: 0 <= k < |r.elems| ==> r.elems[k] == AListParse(ListAt(t, k))
  {
    var tail := if t.tail.Some? then AttrListParse(t.tail.value).elems else [];
    AttrList([AListParse(t.head)] + tail)
  }

  /** A tree with one bracketed `key=value` list per non-empty attribute sequence. */
  function AttrListOf(lists: seq<seq<Attr>>): (t: AttrListPair)
    requires |lists| > 0 && forall k :: 0 <= k < |lists| ==> |lists[k]| > 0
    decreases |lists|
  {
    var head := AListOf(lists[0]);
    if |lists| == 1 then AttrListPair(head, Option.None) else AttrListPair(head, Some(AttrListOf(lists[1..])))
  }

  /** Parsing a tree built from non-empty attribute lists gives the lists back. */
  lemma {:induction false} AttrListRoundTrip(lists: seq<seq<Attr>>)
    requires |lists| > 0 && forall k :: 0 <= k < |lists| ==> |lists[k]| > 0
    ensures |AttrListParse(AttrListOf(lists)).elems| == |lists|
    ensures forall k :: 0 <= k < |lists| ==> AttrListParse(AttrListOf(lists)).elems[k].elems == lists[k]
    decreases |lists|
  {
    var r := AttrListParse(AttrListOf(lists)).elems;
    AListRoundTrip(lists[0]);
    if |lists| > 1 {
      AttrListRoundTrip(lists[1..]);
      var rest := AttrListParse(AttrListOf(lists[1..])).elems;
      assert r == [AListParse(AListOf(lists[0]))] + rest;
      forall k | 0 < k < |lists|
        ensures r[k].elems == lists[k]
      {
        assert r[k] == rest[k - 1];
        assert lists[1..][k - 1] == lists[k];
      }
    }
  }

  /** The module's `test_parse_attr_list`: `[selected,pos="-2.200,-1.520"]`. */
  lemma SampleAttrListParse()
    ensures AttrListParse(AttrListPair(SampleAList(), Option.None)).elems[0].elems
         == [("selected", ""), ("pos", "\"-2.200,-1.520\"")]
  {
    SampleAListParse();
  }

  /** All attributes of an `AttrList`, list by list. */
  function Flatten(lists: seq<AList>): seq<Attr> {
    if lists == [] then [] else Flatten(lists[..|lists| - 1]) + lists[|lists| - 1].elems
  }

  lemma FlattenSingle(l: AList)
    ensures Flatten([l]) == l.elems
  {
    assert [l][..0] == [];
  }

  lemma FlattenSnoc(lists: seq<AList>, i: nat)
    requires i < |lists|
    ensures Flatten(lists[..i + 1]) == Flatten(lists[..i]) + lists[i].elems
  {
    assert lists[..i + 1][..i] == lists[..i];
  }

  // ---------------------------------------------------------------------------------------------
  // Node attributes: the alias table, the `pos` split, last-one-wins
  // ---------------------------------------------------------------------------------------------

  /** The alias table of `parse_node`: the vertex type a key selects, if any. */
  function AliasType(key: string): (r: Option<VertexType>)
    ensures r != Some(VertexType.None)
  {
    if key == "adjusted" || key == "a" then Some(Adjusted)
    else if key == "source" || key == "exposure" || key == "e" then Some(Exposure)
    else if key == "outcome" || key == "target" || key == "o" then Some(Outcome)
    else if key == "selected" || key == "s" then Some(Selected)
    else if key == "latent" || key == "l" || key == "unobserved" || key == "u" then Some(Unobserved)
    else Option.None
  }

  /** The table entry by entry: exactly these keys select each type, and every other key selects none. */
  lemma AliasTable(key: string)
    ensures AliasType(key) == Some(Adjusted) <==> key == "adjusted" || key == "a"
    ensures AliasType(key) == Some(Exposure) <==> key == "source" || key == "exposure" || key == "e"
    ensures AliasType(key) == Some(Outcome) <==> key == "outcome" || key == "target" || key == "o"
    ensures AliasType(key) == Some(Selected) <==> key == "selected" || key == "s"
    ensures AliasType(key) == Some(Unobserved) <==> key == "latent" || key == "l" || key == "unobserved" || key == "u"
    ensures AliasType(key).None? <==> key !in AliasKeys()
  {
  }

  /** `pos` is not in the alias table, so a `pos` attribute never changes the vertex type. */
  lemma PosIsNoAlias()
    ensures AliasType("pos").None?
  {
  }

  /** The fourteen keys of the alias table. */
  function AliasKeys(): set<string> {
    {"adjusted", "a", "source", "exposure", "e", "outcome", "target", "o", "selected", "s",
     "latent", "l", "unobserved", "u"}
  }

  /** `str::find(',')`: the index of the first comma, if there is one. */
  function FindComma(s: string): (r: Option<nat>)
    ensures r.None? <==> ',' !in s
    ensures r.Some? ==> r.value < |s| && s[r.value] == ',' && ',' !in s[..r.value]
  {
    if s == [] then Option.None
    else if s[0] == ',' then Some(0)
    else
      var rest := FindComma(s[1..]);
      if rest.Some? then
        assert s[..rest.value + 1] == [s[0]] + s[1..][..rest.value];
        Some(rest.value + 1)
      else Option.None
  }

  /** `position.split_at(position.find(',').unwrap_or(0))`: the text before the first comma and the rest,
      comma included; with no comma the first part is empty. */
  function PosParts(value: string): (r: (string, string))
    ensures r.0 + r.1 == value
    ensures ',' !in value ==> r.0 == ""
    ensures ',' in value ==> ',' !in r.0 && |r.1| > 0 && r.1[0] == ','
  {
    var k := FindComma(value).GetOr(0);
    (value[..k], value[k..])
  }

  /** The coordinates of a `pos` value: each part through `num`, 0.0 where it does not parse. */
  function PosValue(value: string, num: string -> Option<real>): (p: (real, real))
  {
    var (x, y) := PosParts(value);
    (num(x).GetOr(0.0), num(y).GetOr(0.0))
  }

  /** Each coordinate is the parsed part, or 0.0 when that part does not parse; never an error. */
  lemma PosValueParts(value: string, num: string -> Option<real>)
    ensures var (x, y) := PosParts(value);
      (num(x).Some? ==> PosValue(value, num).0 == num(x).value) &&
      (num(x).None? ==> PosValue(value, num).0 == 0.0) &&
      (num(y).Some? ==> PosValue(value, num).1 == num(y).value) &&
      (num(y).None? ==> PosValue(value, num).1 == 0.0)
  {
  }

  /** Two properties of Rust's `f64::from_str` the model relies on: the empty string and any text
      starting with a comma or a double quote are not numbers. */
  ghost predicate FloatSyntax(num: string -> Option<real>) {
    && num("") == Option.None
    && forall s: string {:trigger num(s)} :: |s| > 0 && (s[0] == ',' || s[0] == '"') ==> num(s) == Option.None
  }

  /** Since the comma stays in the second part, a value with a comma always gets y = 0.0. */
  lemma PosWithCommaHasZeroY(value: string, num: string -> Option<real>)
    requires FloatSyntax(num) && ',' in value
    ensures PosValue(value, num).1 == 0.0
  {
  }

  /** Without a comma x is 0.0 and y is the whole value, parsed. */
  lemma PosWithoutComma(value: string, num: string -> Option<real>)
    requires FloatSyntax(num) && ',' !in value
    ensures PosValue(value, num) == (0.0, num(value).GetOr(0.0))
  {
  }

  /** Dagitty writes `pos="x,y"` with the quotes, and they are kept in the value: such a position
      comes out as (0.0, 0.0) whatever x and y are. */
  lemma QuotedPosIsOrigin(x: string, y: string, num: string -> Option<real>)
    requires FloatSyntax(num)
    ensures PosValue("\"" + x + "," + y + "\"", num) == (0.0, 0.0)
  {
    var value := "\"" + x + "," + y + "\"";
    assert value[|x| + 1] == ',';
    var (a, b) := PosParts(value);
    assert |a| > 0 ==> a[0] == value[0];
  }

  /** The vertex type after scanning `attrs` from `init`: the type of the last key in the alias table,
      or `init` when no key is in it. */
  function LastType(attrs: seq<Attr>, init: VertexType): VertexType {
    if attrs == [] then init
    else
      var t := AliasType(attrs[|attrs| - 1].0);
      if t.Some? then t.value else LastType(attrs[..|attrs| - 1], init)
  }

  /** The position after scanning `attrs` from `init`: that of the last `pos` attribute, or `init`. */
  function LastPos(attrs: seq<Attr>, init: (real, real), num: string -> Option<real>): (real, real) {
    if attrs == [] then init
    else
      var (k, v) := attrs[|attrs| - 1];
      if k == "pos" then PosValue(v, num) else LastPos(attrs[..|attrs| - 1], init, num)
  }

  /** One more attribute: a key from the alias table overrides the type, any other key keeps it. */
  lemma LastTypeSnoc(attrs: seq<Attr>, a: Attr, init: VertexType)
    ensures LastType(attrs + [a], init) == (if AliasType(a.0).Some? then AliasType(a.0).value else LastType(attrs, init))
  {
    assert (attrs + [a])[..|attrs|] == attrs;
  }

  /** One more attribute: a `pos` key overrides the position, any other key keeps it. */
  lemma LastPosSnoc(attrs: seq<Attr>, a: Attr, init: (real, real), num: string -> Option<real>)
    ensures LastPos(attrs + [a], init, num) == (if a.0 == "pos" then PosValue(a.1, num) else LastPos(attrs, init, num))
  {
    assert (attrs + [a])[..|attrs|] == attrs;
  }

  /** The last recognised key wins: if `attrs[k]` names a vertex type and no later key does, that
      is the type. */
  lemma {:induction false} LastRecognisedKeyWins(attrs: seq<Attr>, init: VertexType, k: nat)
    requires k < |attrs| && AliasType(attrs[k].0).Some?
    requires forall j :: k < j < |attrs| ==> AliasType(attrs[j].0).None?
    ensures LastType(attrs, init) == AliasType(attrs[k].0).value
    decreases |attrs|
  {
    var n := |attrs| - 1;
    if k < n {
      var front := attrs[..n];
      assert front[k] == attrs[k];
      forall j | k < j < |front|
        ensures AliasType(front[j].0).None?
      {
        assert front[j] == attrs[j];
      }
      LastRecognisedKeyWins(front, init, k);
    }
  }

  /** With no key from the alias table the type stays `init`. */
  lemma {:induction false} NoRecognisedKey(attrs: seq<Attr>, init: VertexType)
    requires forall j :: 0 <= j < |attrs| ==> AliasType(attrs[j].0).None?
    ensures LastType(attrs, init) == init
    decreases |attrs|
  {
    if attrs != [] {
      var front := attrs[..|attrs| - 1];
      forall j | 0 <= j < |front|
        ensures AliasType(front[j].0).None?
      {
        assert front[j] == attrs[j];
      }
      NoRecognisedKey(front, init);
    }
  }

  /** The last `pos` attribute wins. */
  lemma {:induction false} LastPosWins(attrs: seq<Attr>, init: (real, real), num: string -> Option<real>, k: nat)
    requires k < |attrs| && attrs[k].0 == "pos"
    requires forall j :: k < j < |attrs| ==> attrs[j].0 != "pos"
    ensures LastPos(attrs, init, num) == PosValue(attrs[k].1, num)
    decreases |attrs|
  {
    var n := |attrs| - 1;
    if k < n {
      var front := attrs[..n];
      assert front[k] == attrs[k];
      forall j | k < j < |front|
        ensures front[j].0 != "pos"
      {
        assert front[j] == attrs[j];
      }
      LastPosWins(front, init, num, k);
    }
  }

  /** With no `pos` attribute the position stays `init`. */
  lemma {:induction false} NoPosKey(attrs: seq<Attr>, init: (real, real), num: string -> Option<real>)
    requires forall j :: 0 <= j < |attrs| ==> attrs[j].0 != "pos"
    ensures LastPos(attrs, init, num) == init
    decreases |attrs|
  {
    if attrs != [] {
      var front := attrs[..|attrs| - 1];
      forall j | 0 <= j < |front|
        ensures front[j].0 != "pos"
      {
        assert front[j] == attrs[j];
      }
      NoPosKey(front, init, num);
    }
  }

  /** All attributes of a node statement, in source order. */
  function NodeAttrs(n: NodeStmt): seq<Attr> {
    if n.attrs.Some? then Flatten(AttrListParse(n.attrs.value).elems) else []
  }

  /** The `NodeInfo` a node statement declares. */
  function NodeFor(n: NodeStmt, num: string -> Option<real>): NodeInfo {
    var attrs := NodeAttrs(n);
    var pos := LastPos(attrs, (0.0, 0.0), num);
    NodeInfo.New(n.id, pos.0, pos.1, LastType(attrs, VertexType.None))
  }

  /** Without an attribute list a node gets `VertexType::None`, position (0.0, 0.0) and its id. */
  lemma NodeDefaults(id: string, num: string -> Option<real>)
    ensures var info := NodeFor(NodeStmt(id, Option.None), num);
      info.id == id && info.vertexType == VertexType.None && info.layoutPos == Point(0.0, 0.0)
  {
  }

  // ---------------------------------------------------------------------------------------------
  // `CausalGraphBuilder`
  // ---------------------------------------------------------------------------------------------

  /** `CausalGraphBuilder`: at most one graph under construction. Every method consumes the builder
      and returns it, so it is a value here. */
  datatype CausalGraphBuilder<N, E> = CausalGraphBuilder(graph: Option<CG.CausalGraph<N, E>>) {

    /** `CausalGraphBuilder::new`: no graph yet. */
    static function New(): (b: CausalGraphBuilder<N, E>)
      ensures b.graph.None?
    {
      CausalGraphBuilder(Option.None)
    }

    /** `dag()`: whatever was held is replaced by an empty directed graph. */
    function Dag(): (b: CausalGraphBuilder<N, E>)
      ensures b.graph.Some? && b.graph.value.Dag?
      ensures b.graph.value.graph.nodes == [] && b.graph.value.graph.edges == []
    {
      CausalGraphBuilder(Some(CG.Dag(CG.Graph([], []))))
    }

    /** `graph()`: whatever was held is replaced by an empty undirected graph. */
    function Graph(): (b: CausalGraphBuilder<N, E>)
      ensures b.graph.Some? && b.graph.value.Ungraph?
      ensures b.graph.value.graph.nodes == [] && b.graph.value.graph.edges == []
    {
      CausalGraphBuilder(Some(CG.Ungraph(CG.Graph([], []))))
    }

    /** `add_node` as intended: the held graph gains the node `n` and nothing else changes. */
    function AddNode(n: N): (b: CausalGraphBuilder<N, E>)
      requires graph.Some?
      ensures b.graph.Some? && b.graph.value.Dag? == graph.value.Dag?
      ensures b.graph.value.graph.nodes == graph.value.graph.nodes + [n]
      ensures b.graph.value.graph.edges == graph.value.graph.edges
    {
      CausalGraphBuilder(Some(graph.value.AddNode(n).0))
    }

    /** `build`: the held graph; the source unwraps, so one must be set. */
    function Build(): (g: CG.CausalGraph<N, E>)
      requires graph.Some?
      ensures Some(g) == graph
    {
      graph.value
    }
  }

  /** `add_node` as written: it calls the builder's own `graph()`, which starts an empty undirected
      graph, and then itself on the result, so it never returns. `fuel` bounds the recursion depth;
      no depth is enough. */
  function AddNodeAsWritten<N, E>(b: CausalGraphBuilder<N, E>, n: N, fuel: nat): Option<CausalGraphBuilder<N, E>>
    decreases fuel
  {
    if fuel == 0 then Option.None else AddNodeAsWritten(b.Graph(), n, fuel - 1)
  }

  lemma {:induction false} AddNodeAsWrittenNeverReturns<N, E>(b: CausalGraphBuilder<N, E>, n: N, fuel: nat)
    ensures AddNodeAsWritten(b, n, fuel) == Option.None
    decreases fuel
  {
    if fuel > 0 {
      AddNodeAsWrittenNeverReturns(b.Graph(), n, fuel - 1);
    }
  }

  /** The graph-type keyword: "digraph" and "dag" make a directed graph, "graph", "mag", "pdag" and
      "pag" an undirected one; anything else is an error. */
  function SelectGraphType<N, E>(b: CausalGraphBuilder<N, E>, keyword: string): (r: Result<CausalGraphBuilder<N, E>, ParseError>)
    ensures r.Success? <==> keyword in {"digraph", "dag", "graph", "mag", "pdag", "pag"}
    ensures r.Success? ==> r.value.graph.Some? && r.value.graph.value.graph == CG.Graph([], [])
    ensures r.Success? ==> (r.value.graph.value.Dag? <==> keyword in {"digraph", "dag"})
    ensures r.Failure? ==> r.error == UnknownGraphType(keyword)
  {
    if keyword == "digraph" || keyword == "dag" then Success(b.Dag())
    else if keyword == "graph" || keyword == "mag" || keyword == "pdag" || keyword == "pag" then Success(b.Graph())
    else Failure(UnknownGraphType(keyword))
  }

  // ---------------------------------------------------------------------------------------------
  // Statements
  // ---------------------------------------------------------------------------------------------

  type Builder = CausalGraphBuilder<NodeInfo, EdgeInfo>

  /** One arm of `parse_node`'s match: a key from the alias table sets the vertex type, a `pos` key
      sets the position, anything else leaves both as they were. */
  method ScanAttr(ghost seen: seq<Attr>, key: string, value: string, vertexType: VertexType, pos: (real, real),
                  num: string -> Option<real>)
    returns (vt: VertexType, p: (real, real))
    requires vertexType == LastType(seen, VertexType.None) && pos == LastPos(seen, (0.0, 0.0), num)
    ensures vt == LastType(seen + [(key, value)], VertexType.None)
    ensures p == LastPos(seen + [(key, value)], (0.0, 0.0), num)
  {
    LastTypeSnoc(seen, (key, value), VertexType.None);
    LastPosSnoc(seen, (key, value), (0.0, 0.0), num);
    PosIsNoAlias();
    vt, p := vertexType, pos;
    var t := AliasType(key);
    if t.Some? {
      vt := t.value;
    } else if key == "pos" {
      p := PosValue(value, num);
    }
  }

  /** The inner loop of `parse_node`: the attributes of one bracketed list, in order. */
  method ScanAList(ghost seen: seq<Attr>, alist: AList, vertexType: VertexType, pos: (real, real),
                   num: string -> Option<real>)
    returns (vt: VertexType, p: (real, real))
    requires vertexType == LastType(seen, VertexType.None) && pos == LastPos(seen, (0.0, 0.0), num)
    ensures vt == LastType(seen + alist.elems, VertexType.None)
    ensures p == LastPos(seen + alist.elems, (0.0, 0.0), num)
  {
    vt, p := vertexType, pos;
    assert seen + alist.elems[..0] == seen;
    for j := 0 to |alist.elems|
      invariant vt == LastType(seen + alist.elems[..j], VertexType.None)
      invariant p == LastPos(seen + alist.elems[..j], (0.0, 0.0), num)
    {
      var (key, value) := alist.elems[j];
      assert seen + alist.elems[..j + 1] == (seen + alist.elems[..j]) + [(key, value)];
      vt, p := ScanAttr(seen + alist.elems[..j], key, value, vt, p, num);
    }
    assert alist.elems[..|alist.elems|] == alist.elems;
  }

  /** `parse_node`: scan every attribute of every bracketed list in order (the last recognised key
      and the last `pos` win), then add the node through the corrected `CausalGraphBuilder.AddNode`. */
  method ParseNode(n: NodeStmt, builder: Builder, num: string -> Option<real>) returns (r: Result<Builder, ParseError>)
    requires builder.graph.Some?
    ensures r == Success(builder.AddNode(NodeFor(n, num)))
  {
    var vertexType := VertexType.None;
    var pos := (0.0, 0.0);
    if n.attrs.Some? {
      var attrs := AttrListParse(n.attrs.value);
      for i := 0 to |attrs.elems|
        invariant vertexType == LastType(Flatten(attrs.elems[..i]), VertexType.None)
        invariant pos == LastPos(Flatten(attrs.elems[..i]), (0.0, 0.0), num)
      {
        vertexType, pos := ScanAList(Flatten(attrs.elems[..i]), attrs.elems[i], vertexType, pos, num);
        FlattenSnoc(attrs.elems, i);
      }
      assert attrs.elems[..|attrs.elems|] == attrs.elems;
    }
    var info := NodeInfo.New(n.id, pos.0, pos.1, vertexType);
    r := Success(builder.AddNode(info));
  }

  /** `parse_edge` is a stub: the builder comes back as it was, with no node and no edge added. */
  function ParseEdge(text: string, builder: Builder): (r: Result<Builder, ParseError>)
    ensures r.Success? && r.value.graph == builder.graph
  {
    Success(builder)
  }

  /** Every statement is a node or an edge statement, the only rules `parse_stmt` handles. */
  predicate Supported(stmts: StmtList) {
    match stmts
    case EmptyStmts => true
    case StmtCons(s, tail) => !s.OtherStmt? && Supported(tail)
  }

  /** The nodes the statements declare, in order; a repeated id declares a second node. */
  function DeclaredNodes(stmts: StmtList, num: string -> Option<real>): seq<NodeInfo> {
    match stmts
    case EmptyStmts => []
    case StmtCons(s, tail) => (if s.Node? then [NodeFor(s.node, num)] else []) + DeclaredNodes(tail, num)
  }

  /** The first statement that is neither a node nor an edge statement. */
  function FirstUnsupported(stmts: StmtList): string
    requires !Supported(stmts)
  {
    match stmts
    case StmtCons(s, tail) => if s.OtherStmt? then s.rule else FirstUnsupported(tail)
  }

  /** `parse_stmt`: dispatch on the rule of the statement's child. */
  method ParseStmt(s: Stmt, builder: Builder, num: string -> Option<real>) returns (r: Result<Builder, ParseError>)
    requires builder.graph.Some?
    ensures s.Node? ==> r == Success(builder.AddNode(NodeFor(s.node, num)))
    ensures s.EdgeStmt? ==> r == Success(builder)
    ensures s.OtherStmt? ==> r == Failure(UnexpectedRule(s.rule))
  {
    match s
    case Node(n) => r := ParseNode(n, builder, num);
    case EdgeStmt(text) => r := ParseEdge(text, builder);
    case OtherStmt(rule) => r := Failure(UnexpectedRule(rule));
  }

  /** `parse_stmts`: the head statement, then the rest. On success the builder's graph has gained
      exactly the declared nodes, in order, and no edge; the first unsupported statement is the error. */
  method ParseStmts(stmts: StmtList, builder: Builder, num: string -> Option<real>) returns (r: Result<Builder, ParseError>)
    requires builder.graph.Some?
    ensures r.Success? <==> Supported(stmts)
    ensures r.Success? ==> r.value.graph.Some? && r.value.graph.value.Dag? == builder.graph.value.Dag?
    ensures r.Success? ==> r.value.graph.value.graph.nodes == builder.graph.value.graph.nodes + DeclaredNodes(stmts, num)
    ensures r.Success? ==> r.value.graph.value.graph.edges == builder.graph.value.graph.edges
    ensures r.Failure? ==> r.error == UnexpectedRule(FirstUnsupported(stmts))
    decreases stmts
  {
    match stmts
    case EmptyStmts =>
      r := Success(builder);
    case StmtCons(s, tail) =>
      var next := ParseStmt(s, builder, num);
      if next.Failure? {
        return next;
      }
      r := ParseStmts(tail, next.value, num);
  }

  /** What `parse_str` produces for a graph-type keyword and a statement list. */
  ghost predicate ParsedAs(r: Result<CG.CausalGraph<NodeInfo, EdgeInfo>, ParseError>, keyword: string,
                           stmts: StmtList, num: string -> Option<real>) {
    && (r.Success? <==> keyword in {"digraph", "dag", "graph", "mag", "pdag", "pag"} && Supported(stmts))
    && (r.Success? ==> (r.value.Dag? <==> keyword in {"digraph", "dag"}))
    && (r.Success? ==> r.value.graph.nodes == DeclaredNodes(stmts, num) && r.value.graph.edges == [])
    && (r.Failure? && keyword !in {"digraph", "dag", "graph", "mag", "pdag", "pag"} ==> r.error == UnknownGraphType(keyword))
    && (r.Failure? && keyword in {"digraph", "dag", "graph", "mag", "pdag", "pag"} ==> r.error == UnexpectedRule(FirstUnsupported(stmts)))
  }

  /** `parse_str` as intended: pick the graph kind from the keyword (a leading `STRICT` is read and
      ignored), apply the statement list, and build. */
  method ParseStr(t: DagittyGraph, num: string -> Option<real>) returns (r: Result<CG.CausalGraph<NodeInfo, EdgeInfo>, ParseError>)
    ensures ParsedAs(r, t.graphType, t.stmts, num)
  {
    var builder := Builder.New();
    var strict := t.strict;
    var selected := SelectGraphType(builder, t.graphType);
    if selected.Failure? {
      return Failure(selected.error);
    }
    var parsed := ParseStmts(t.stmts, selected.value, num);
    match parsed
    case Failure(e) => r := Failure(e);
    case Success(b) => r := Success(b.Build());
  }

  /** `parse_str` as written: it hands `parse_stmts` the graph-type keyword's pair, whose text is only
      the keyword, so it has no statement children and no statement is ever applied. */
  method ParseStrAsWritten(t: DagittyGraph, num: string -> Option<real>) returns (r: Result<CG.CausalGraph<NodeInfo, EdgeInfo>, ParseError>)
    ensures ParsedAs(r, t.graphType, EmptyStmts, num)
    ensures r.Success? ==> r.value.graph.nodes == []
  {
    var builder := Builder.New();
    var strict := t.strict;
    var selected := SelectGraphType(builder, t.graphType);
    if selected.Failure? {
      return Failure(selected.error);
    }
    var keywordChildren := EmptyStmts;
    var parsed := ParseStmts(keywordChildren, selected.value, num);
    match parsed
    case Failure(e) => r := Failure(e);
    case Success(b) => r := Success(b.Build());
  }

  // ---------------------------------------------------------------------------------------------
  // The module's test graph
  // ---------------------------------------------------------------------------------------------

  /** A dagitty position value as written in the input, quotes included: `"x,y"`. */
  function Quoted(x: string, y: string): string {
    "\"" + x + "," + y + "\""
  }

  /** `[pos="x,y"]`. */
  function PosAttr(x: string, y: string): AttrListPair {
    AttrListPair(AListPair(IdEq("pos", Quoted(x, y)), Option.None), Option.None)
  }

  /** `[key,pos="x,y"]`. */
  function TypedPosAttr(key: string, x: string, y: string): AttrListPair {
    AttrListPair(AListPair(Bare(key), Some(AListPair(IdEq("pos", Quoted(x, y)), Option.None))), Option.None)
  }

  /** A statement list: the node statements `nodes`, then an edge statement per text in `edges`. */
  function Stmts(nodes: seq<NodeStmt>, edges: seq<string>): StmtList
    decreases |nodes| + |edges|
  {
    if nodes != [] then StmtCons(Node(nodes[0]), Stmts(nodes[1..], edges))
    else if edges != [] then StmtCons(EdgeStmt(edges[0]), Stmts([], edges[1..]))
    else EmptyStmts
  }

  /** Such a list is supported and declares exactly the nodes of its node statements, in order. */
  lemma {:induction false} StmtsDeclare(nodes: seq<NodeStmt>, edges: seq<string>, num: string -> Option<real>)
    ensures Supported(Stmts(nodes, edges))
    ensures |DeclaredNodes(Stmts(nodes, edges), num)| == |nodes|
    ensures forall k :: 0 <= k < |nodes| ==> DeclaredNodes(Stmts(nodes, edges), num)[k] == NodeFor(nodes[k], num)
    decreases |nodes| + |edges|
  {
    if nodes != [] {
      StmtsDeclare(nodes[1..], edges, num);
      var rest := DeclaredNodes(Stmts(nodes[1..], edges), num);
      assert DeclaredNodes(Stmts(nodes, edges), num) == [NodeFor(nodes[0], num)] + rest;
      forall k | 0 < k < |nodes|
        ensures DeclaredNodes(Stmts(nodes, edges), num)[k] == NodeFor(nodes[k], num)
      {
        assert rest[k - 1] == NodeFor(nodes[1..][k - 1], num);
      }
    } else if edges != [] {
      StmtsDeclare([], edges[1..], num);
    }
  }

  /** The node statements of `BASE_DAG_STR`. */
  function BaseDagNodeStmts(): seq<NodeStmt> {
    [NodeStmt("A", Some(TypedPosAttr("selected", "-2.200", "-1.520"))),
     NodeStmt("B", Some(PosAttr("1.400", "-1.460"))),
     NodeStmt("D", Some(TypedPosAttr("outcome", "1.400", "1.621"))),
     NodeStmt("E", Some(TypedPosAttr("exposure", "-2.200", "1.597"))),
     NodeStmt("Z", Some(TypedPosAttr("adjusted", "-0.300", "-0.082")))]
  }

  /** `BASE_DAG_STR`: five node statements with types and positions, then five edge statements. */
  function BaseDag(): DagittyGraph {
    DagittyGraph(false, "dag", Stmts(BaseDagNodeStmts(),
      ["A -> E", "A -> Z [pos=\"-0.791,-1.045\"]", "B -> D", "B -> Z [pos=\"0.680,-0.496\"]", "E -> D"]))
  }

  /** A node written `id [key,pos="x,y"]`: it gets the key's type and, as written, position (0.0, 0.0). */
  lemma TypedPosNode(id: string, key: string, x: string, y: string, num: string -> Option<real>)
    requires FloatSyntax(num) && AliasType(key).Some?
    ensures NodeFor(NodeStmt(id, Some(TypedPosAttr(key, x, y))), num) == NodeInfo.New(id, 0.0, 0.0, AliasType(key).value)
  {
    var list := AListPair(Bare(key), Some(AListPair(IdEq("pos", Quoted(x, y)), Option.None)));
    assert AListParse(list).elems == [(key, ""), ("pos", Quoted(x, y))] by {
      assert ItemCount(list) == 2;
    }
    assert AttrListParse(TypedPosAttr(key, x, y)).elems == [AListParse(list)];
    FlattenSingle(AListParse(list));
    var attrs := NodeAttrs(NodeStmt(id, Some(TypedPosAttr(key, x, y))));
    assert attrs == [(key, "")] + [("pos", Quoted(x, y))];
    assert [(key, "")] == [] + [(key, "")];
    PosIsNoAlias();
    LastTypeSnoc([], (key, ""), VertexType.None);
    LastTypeSnoc([(key, "")], ("pos", Quoted(x, y)), VertexType.None);
    LastPosSnoc([(key, "")], ("pos", Quoted(x, y)), (0.0, 0.0), num);
    QuotedPosIsOrigin(x, y, num);
  }

  /** A node written `id [pos="x,y"]`: type `None` and, as written, position (0.0, 0.0). */
  lemma PosNode(id: string, x: string, y: string, num: string -> Option<real>)
    requires FloatSyntax(num)
    ensures NodeFor(NodeStmt(id, Some(PosAttr(x, y))), num) == NodeInfo.New(id, 0.0, 0.0, VertexType.None)
  {
    var list := AListPair(IdEq("pos", Quoted(x, y)), Option.None);
    assert AttrListParse(PosAttr(x, y)).elems == [AListParse(list)];
    FlattenSingle(AListParse(list));
    var attrs := NodeAttrs(NodeStmt(id, Some(PosAttr(x, y))));
    assert attrs == [("pos", Quoted(x, y))];
    QuotedPosIsOrigin(x, y, num);
    assert [] + [attrs[0]] == attrs;
    PosIsNoAlias();
    LastTypeSnoc([], attrs[0], VertexType.None);
    LastPosSnoc([], attrs[0], (0.0, 0.0), num);
  }

  /** The type keys used by `BASE_DAG_STR`. */
  lemma FixtureKeys()
    ensures AliasType("selected") == Some(Selected) && AliasType("outcome") == Some(Outcome)
    ensures AliasType("exposure") == Some(Exposure) && AliasType("adjusted") == Some(Adjusted)
  {
  }

  /** The nodes `BASE_DAG_STR` declares, as the code is written: all quoted positions give (0.0, 0.0). */
  function BaseDagExpected(): seq<NodeInfo> {
    [NodeInfo.New("A", 0.0, 0.0, Selected), NodeInfo.New("B", 0.0, 0.0, VertexType.None),
     NodeInfo.New("D", 0.0, 0.0, Outcome), NodeInfo.New("E", 0.0, 0.0, Exposure),
     NodeInfo.New("Z", 0.0, 0.0, Adjusted)]
  }

  /** Node `A [selected,pos="-2.200,-1.520"]`. */
  lemma BaseDagA(num: string -> Option<real>)
    requires FloatSyntax(num)
    ensures NodeFor(BaseDagNodeStmts()[0], num) == BaseDagExpected()[0]
  {
    FixtureKeys();
    TypedPosNode("A", "selected", "-2.200", "-1.520", num);
  }

  /** Node `B [pos="1.400,-1.460"]`. */
  lemma BaseDagB(num: string -> Option<real>)
    requires FloatSyntax(num)
    ensures NodeFor(BaseDagNodeStmts()[1], num) == BaseDagExpected()[1]
  {
    PosIsNoAlias();
    PosNode("B", "1.400", "-1.460", num);
  }

  /** Node `D [outcome,pos="1.400,1.621"]`. */
  lemma BaseDagD(num: string -> Option<real>)
    requires FloatSyntax(num)
    ensures NodeFor(BaseDagNodeStmts()[2], num) == BaseDagExpected()[2]
  {
    FixtureKeys();
    TypedPosNode("D", "outcome", "1.400", "1.621", num);
  }

  /** Node `E [exposure,pos="-2.200,1.597"]`. */
  lemma BaseDagE(num: string -> Option<real>)
    requires FloatSyntax(num)
    ensures NodeFor(BaseDagNodeStmts()[3], num) == BaseDagExpected()[3]
  {
    FixtureKeys();
    TypedPosNode("E", "exposure", "-2.200", "1.597", num);
  }

  /** Node `Z [adjusted,pos="-0.300,-0.082"]`. */
  lemma BaseDagZ(num: string -> Option<real>)
    requires FloatSyntax(num)
    ensures NodeFor(BaseDagNodeStmts()[4], num) == BaseDagExpected()[4]
  {
    FixtureKeys();
    TypedPosNode("Z", "adjusted", "-0.300", "-0.082", num);
  }

  /** Parsing `BASE_DAG_STR` as intended gives a directed graph with the nodes A, B, D, E, Z in order,
      typed Selected, None, Outcome, Exposure, Adjusted, all at (0.0, 0.0) as the code is written, and
      no edges; the code as written gives no nodes at all. */
  lemma BaseDagNodes(num: string -> Option<real>)
    requires FloatSyntax(num)
    ensures Supported(BaseDag().stmts)
    ensures DeclaredNodes(BaseDag().stmts, num) == BaseDagExpected()
  {
    StmtsDeclare(BaseDagNodeStmts(), ["A -> E", "A -> Z [pos=\"-0.791,-1.045\"]", "B -> D", "B -> Z [pos=\"0.680,-0.496\"]", "E -> D"], num);
    var declared := DeclaredNodes(BaseDag().stmts, num);
    BaseDagA(num);
    BaseDagB(num);
    BaseDagD(num);
    BaseDagE(num);
    BaseDagZ(num);
    SameFive(declared, BaseDagExpected());
  }

  /** Two five-element sequences that agree at every index are equal. */
  lemma SameFive<T>(a: seq<T>, b: seq<T>)
    requires |a| == 5 && |b| == 5
    requires a[0] == b[0] && a[1] == b[1] && a[2] == b[2] && a[3] == b[3] && a[4] == b[4]
    ensures a == b
  {
    assert forall k :: 0 <= k < 5 ==> a[k] == b[k];
  }

  /** `BASE_DAG_STR` through both versions of `parse_str`: as written it builds a `Dag` with no nodes,
      as intended one with the five declared nodes. */
  method BaseDagBothWays(num: string -> Option<real>)
    returns (written: Result<CG.CausalGraph<NodeInfo, EdgeInfo>, ParseError>,
             intended: Result<CG.CausalGraph<NodeInfo, EdgeInfo>, ParseError>)
    requires FloatSyntax(num)
    ensures written.Success? && written.value.Dag? && written.value.graph.nodes == []
    ensures intended.Success? && intended.value.Dag? && intended.value.graph.nodes == BaseDagExpected()
    ensures written != intended
  {
    BaseDagNodes(num);
    written := ParseStrAsWritten(BaseDag(), num);
    intended := ParseStr(BaseDag(), num);
  }
}
