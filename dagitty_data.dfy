/** why-data's `graph::dagitty` module: the node and edge payloads of a dagitty causal graph. */
module DagittyData {
  import Wrappers
  import opened Types

  /** The role a vertex plays in a causal model. */
  datatype VertexType = None | Adjusted | Exposure | Outcome | Selected | Unobserved

  /** The kind of an edge; the source spells the middle variant `_Bidirected`. */
  datatype EdgeType = Directed | Bidirected | Undirected

  /** Every vertex type, once each. */
  function AllVertexTypes(): (s: seq<VertexType>)
    ensures |s| == 6
    ensures forall i, j :: 0 <= i < j < |s| ==> s[i] != s[j]
  {
    [None, Adjusted, Exposure, Outcome, Selected, Unobserved]
  }

  /** The six variants are all there is. */
  lemma VertexTypeExhaustive(v: VertexType)
    ensures v in AllVertexTypes()
  {
    var s := AllVertexTypes();
    match v
    case None => assert s[0] == v;
    case Adjusted => assert s[1] == v;
    case Exposure => assert s[2] == v;
    case Outcome => assert s[3] == v;
    case Selected => assert s[4] == v;
    case Unobserved => assert s[5] == v;
  }

  /** Every edge type, once each. */
  function AllEdgeTypes(): (s: seq<EdgeType>)
    ensures |s| == 3
    ensures forall i, j :: 0 <= i < j < |s| ==> s[i] != s[j]
  {
    [Directed, Bidirected, Undirected]
  }

  /** The three variants are all there is. */
  lemma EdgeTypeExhaustive(e: EdgeType)
    ensures e in AllEdgeTypes()
  {
    var s := AllEdgeTypes();
    match e
    case Directed => assert s[0] == e;
    case Bidirected => assert s[1] == e;
    case Undirected => assert s[2] == e;
  }

  /** `NodeInfo`; the `Mutable` cells of the source are plain fields here. */
  datatype NodeInfo = NodeInfo(id: string, layoutPos: Point<real>, vertexType: VertexType, vertexPathId: string) {

    /** `NodeInfo::DEFAULT_HTML_PATH_ID_PREFIX`. */
    static const DefaultHtmlPathIdPrefix: string := "node_path_id_"

    /** `NodeInfo::new`: keeps the id, the position and the type, and derives the HTML path id from the id. */
    static function New(id: string, x: real, y: real, vertexType: VertexType): (n: NodeInfo)
      ensures n.id == id && n.layoutPos == Point.New(x, y) && n.vertexType == vertexType
      ensures n.vertexPathId == DefaultHtmlPathIdPrefix + id
    {
      NodeInfo(id, Point.New(x, y), vertexType, DefaultHtmlPathIdPrefix + id)
    }
  }

  /** The HTML path id of a new node starts with the prefix, and what follows the prefix is the node id. */
  lemma PathIdSplits(id: string, x: real, y: real, t: VertexType)
    ensures var p := NodeInfo.New(id, x, y, t).vertexPathId;
      |p| == |NodeInfo.DefaultHtmlPathIdPrefix| + |id| &&
      p[..|NodeInfo.DefaultHtmlPathIdPrefix|] == NodeInfo.DefaultHtmlPathIdPrefix &&
      p[|NodeInfo.DefaultHtmlPathIdPrefix|..] == id
  {
    var p := NodeInfo.New(id, x, y, t).vertexPathId;
    assert p == NodeInfo.DefaultHtmlPathIdPrefix + id;
  }

  /** Distinct node ids give distinct HTML path ids. */
  lemma PathIdInjective(id1: string, id2: string, x1: real, y1: real, t1: VertexType, x2: real, y2: real, t2: VertexType)
    requires NodeInfo.New(id1, x1, y1, t1).vertexPathId == NodeInfo.New(id2, x2, y2, t2).vertexPathId
    ensures id1 == id2
  {
    PathIdSplits(id1, x1, y1, t1);
    PathIdSplits(id2, x2, y2, t2);
  }

  /** `EdgeInfo`; an absent `layout_pos` means the edge is drawn straight. */
  datatype EdgeInfo = EdgeInfo(id: string, layoutPos: Wrappers.Option<Point<real>>, edgeType: EdgeType) {

    /** `EdgeInfo::new`: stores its three arguments unchanged. */
    static function New(id: string, layoutPos: Wrappers.Option<Point<real>>, edgeType: EdgeType): (e: EdgeInfo)
      ensures e.id == id && e.layoutPos == layoutPos && e.edgeType == edgeType
    {
      EdgeInfo(id, layoutPos, edgeType)
    }
  }
}
