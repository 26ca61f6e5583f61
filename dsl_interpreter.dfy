/** The interpreter of the layout DSL (GraphLayoutDSL/src/interpreter/Interpreter.py):
    it turns the concrete syntax tree that the textX parser builds into layout
    directives (PythonModels.MLayoutGraph, PythonModels.MLayoutSubgraphs).

    The parser is not modelled: `Execute` receives what `model_from_str` produced,
    either the syntax error message or the model object. A model object's
    `__dict__` is a sequence of attributes (CstNode), enumerated in that order. */
module Interpreter {
  import opened Wrappers
  import opened PythonModels

  /** A `layoutType` node: how to lay out, and the attribute of each kind. */
  datatype LayoutType = LayoutType(howToLayout: string, algorithm: CstNode, style: string, aestheticCriteria: seq<CstNode>)

  /** A vertex of a subgraph description: textX leaves `index` at 0 when only a
      content label was written. */
  datatype VertexRef = VertexRef(index: int, content: string)

  datatype Subgraph = Subgraph(vertices: seq<VertexRef>)

  /** `subgraph` is None for the `others` entry. */
  datatype LayoutSubgraph = LayoutSubgraph(subgraph: Option<Subgraph>, layoutType: LayoutType)

  /** What the parser gives back: a syntax error, or a model of one of two classes. */
  datatype ParsedModel =
    | SyntaxError(message: string)
    | LayoutGraphModel(layoutType: LayoutType)
    | LayoutSubgraphsModel(layoutSubgraphs: seq<LayoutSubgraph>)

  /** What `execute` returns: one directive (None when the layout type is not
      recognised) or the list of subgraph directives. */
  datatype Executed = Single(directive: Option<MLayoutGraph>) | Several(subgraphs: MLayoutSubgraphs)

  type Pair = (string, Value)

  // ---------------------------------------------------------------------------
  // Attribute bags

  /** Attributes that textX adds for its own use: names starting with `_`, and `parent`. */
  predicate Skipped(name: string)
  {
    (|name| > 0 && name[0] == '_') || name == "parent"
  }

  /** The dictionary a sequence of assignments `d[k] = v` builds, starting from `{}`. */
  function MapOf(ps: seq<Pair>): map<string, Value>
  {
    if ps == [] then map[] else MapOf(ps[..|ps| - 1])[ps[|ps| - 1].0 := ps[|ps| - 1].1]
  }

  lemma MapOfSnoc(ps: seq<Pair>, p: Pair)
    ensures MapOf(ps + [p]) == MapOf(ps)[p.0 := p.1]
  {
    assert (ps + [p])[..|ps|] == ps;
  }

  /** A key is in the dictionary iff some assignment wrote it, and it holds the
      value of the last assignment to it. */
  lemma {:induction false} MapOfLastWriteWins(ps: seq<Pair>, k: string)
    ensures k in MapOf(ps) <==> exists i :: 0 <= i < |ps| && ps[i].0 == k
    ensures forall i :: 0 <= i < |ps| && ps[i].0 == k && (forall j :: i < j < |ps| ==> ps[j].0 != k) ==>
      k in MapOf(ps) && MapOf(ps)[k] == ps[i].1
  {
    if ps != [] {
      var n := |ps| - 1;
      var pre := ps[..n];
      MapOfLastWriteWins(pre, k);
      assert forall i :: 0 <= i < n ==> pre[i] == ps[i];
      if ps[n].0 != k {
        if k in MapOf(ps) {
          var i :| 0 <= i < n && pre[i].0 == k;
          assert ps[i].0 == k;
        }
      }
    }
  }

  /** The assignments made for the attributes of one model object: every
      attribute that is not Skipped, in order. */
  function VisibleAttrs(attrs: seq<Attr>): seq<Pair>
  {
    if attrs == [] then []
    else
      var a := attrs[|attrs| - 1];
      VisibleAttrs(attrs[..|attrs| - 1]) + (if Skipped(a.name) then [] else [(a.name, a.value)])
  }

  lemma VisibleAttrsSnoc(attrs: seq<Attr>, a: Attr)
    ensures VisibleAttrs(attrs + [a]) == VisibleAttrs(attrs) + (if Skipped(a.name) then [] else [(a.name, a.value)])
  {
    assert (attrs + [a])[..|attrs|] == attrs;
  }

  /** The assignments made for a list of model objects, one after the other. */
  function NodesVisibleAttrs(nodes: seq<CstNode>): seq<Pair>
  {
    if nodes == [] then [] else NodesVisibleAttrs(nodes[..|nodes| - 1]) + VisibleAttrs(nodes[|nodes| - 1].attrs)
  }

  /** Iterating the value of a `properties` attribute: a list of model objects is
      unwrapped; a non-empty string yields characters, which have no `__dict__`;
      anything else is not iterable. */
  function PropertiesAttrs(v: Value): Result<seq<Pair>, Fault>
  {
    match v
    case NodesV(nodes) => Success(NodesVisibleAttrs(nodes))
    case StrV(s) => if s == "" then Success([]) else Failure(AttributeError("__dict__"))
    case _ => Failure(TypeError("properties is not iterable"))
  }

  /** The assignments made for one attribute of the algorithm object, after `ps`. */
  function AlgorithmStep(ps: seq<Pair>, a: Attr): Result<seq<Pair>, Fault>
  {
    if Skipped(a.name) then Success(ps)
    else if a.name == "properties" then
      match PropertiesAttrs(a.value)
      case Failure(f) => Failure(f)
      case Success(qs) => Success(ps + qs)
    else Success(ps + [(a.name, a.value)])
  }

  /** The assignments made into the algorithm's property dictionary. */
  function AlgorithmAttrs(attrs: seq<Attr>): Result<seq<Pair>, Fault>
  {
    if attrs == [] then Success([])
    else
      match AlgorithmAttrs(attrs[..|attrs| - 1])
      case Failure(f) => Failure(f)
      case Success(ps) => AlgorithmStep(ps, attrs[|attrs| - 1])
  }

  lemma AlgorithmAttrsPrefix(attrs: seq<Attr>, i: nat, ps: seq<Pair>)
    requires i < |attrs| && AlgorithmAttrs(attrs[..i]) == Success(ps)
    ensures AlgorithmAttrs(attrs[..i + 1]) == AlgorithmStep(ps, attrs[i])
  {
    assert attrs[..i + 1][..i] == attrs[..i];
  }

  lemma {:induction false} AlgorithmAttrsFailurePersists(attrs: seq<Attr>, i: nat)
    requires i <= |attrs| && AlgorithmAttrs(attrs[..i]).Failure?
    ensures AlgorithmAttrs(attrs) == AlgorithmAttrs(attrs[..i])
    decreases |attrs| - i
  {
    if i < |attrs| {
      assert attrs[..i + 1][..i] == attrs[..i];
      AlgorithmAttrsFailurePersists(attrs, i + 1);
    } else {
      assert attrs[..i] == attrs;
    }
  }

  /** No attribute that textX adds for itself reaches the algorithm's properties. */
  lemma {:induction false} AlgorithmAttrsHideSkipped(attrs: seq<Attr>)
    ensures AlgorithmAttrs(attrs).Success? ==>
      forall i :: 0 <= i < |AlgorithmAttrs(attrs).value| ==> !Skipped(AlgorithmAttrs(attrs).value[i].0)
  {
    if attrs != [] {
      AlgorithmAttrsHideSkipped(attrs[..|attrs| - 1]);
      var a := attrs[|attrs| - 1];
      if a.name == "properties" && a.value.NodesV? {
        NodesVisibleAttrsHideSkipped(a.value.nodes);
      }
    }
  }

  lemma {:induction false} VisibleAttrsHideSkipped(attrs: seq<Attr>)
    ensures forall i :: 0 <= i < |VisibleAttrs(attrs)| ==> !Skipped(VisibleAttrs(attrs)[i].0)
  {
    if attrs != [] {
      VisibleAttrsHideSkipped(attrs[..|attrs| - 1]);
    }
  }

  lemma {:induction false} NodesVisibleAttrsHideSkipped(nodes: seq<CstNode>)
    ensures forall i :: 0 <= i < |NodesVisibleAttrs(nodes)| ==> !Skipped(NodesVisibleAttrs(nodes)[i].0)
  {
    if nodes != [] {
      NodesVisibleAttrsHideSkipped(nodes[..|nodes| - 1]);
      VisibleAttrsHideSkipped(nodes[|nodes| - 1].attrs);
    }
  }

  /** Without a `properties` attribute, the algorithm dictionary is built exactly
      like a criterion's: every visible attribute, in order. */
  lemma {:induction false} AlgorithmWithoutProperties(attrs: seq<Attr>)
    requires forall i :: 0 <= i < |attrs| ==> attrs[i].name != "properties"
    ensures AlgorithmAttrs(attrs) == Success(VisibleAttrs(attrs))
  {
    if attrs != [] {
      var pre := attrs[..|attrs| - 1];
      AlgorithmWithoutProperties(pre);
      assert VisibleAttrs(pre) + [] == VisibleAttrs(pre);
    }
  }

  /** `properties` is unwrapped one level only: the visible attributes of each
      property object are stored as they are, even when one of them is itself a
      list of objects or is named `properties`. */
  lemma PropertiesUnwrappedOneLevel(before: seq<Attr>, nodes: seq<CstNode>)
    requires AlgorithmAttrs(before).Success?
    ensures AlgorithmAttrs(before + [Attr("properties", NodesV(nodes))])
         == Success(AlgorithmAttrs(before).value + NodesVisibleAttrs(nodes))
  {
    var attrs := before + [Attr("properties", NodesV(nodes))];
    assert attrs[..|before|] == before;
    AlgorithmAttrsPrefix(attrs, |before|, AlgorithmAttrs(before).value);
    assert attrs[..|before| + 1] == attrs;
  }

  // ---------------------------------------------------------------------------
  // Subgraph targets

  function DigitChar(d: nat): char
    requires d < 10
  {
    "0123456789"[d]
  }

  /** Python's `str` of a natural number: its decimal digits. */
  function NatToString(n: nat): (s: string)
    ensures |s| > 0 && forall i :: 0 <= i < |s| ==> '0' <= s[i] <= '9'
  {
    if n < 10 then [DigitChar(n)] else NatToString(n / 10) + [DigitChar(n % 10)]
  }

  /** Python's `str` of an integer. */
  function IntToString(i: int): string
  {
    if i < 0 then "-" + NatToString(-i) else NatToString(i)
  }

  /** The text that stands for one vertex: its index when that is truthy (not 0),
      its content label otherwise. */
  function Token(v: VertexRef): string
  {
    if v.index != 0 then IntToString(v.index) else v.content
  }

  function Tokens(vs: seq<VertexRef>): (ts: seq<string>)
    ensures |ts| == |vs| && forall i :: 0 <= i < |vs| ==> ts[i] == Token(vs[i])
  {
    if vs == [] then [] else Tokens(vs[..|vs| - 1]) + [Token(vs[|vs| - 1])]
  }

  /** The tokens separated by single commas. */
  function Joined(ts: seq<string>): string
  {
    if ts == [] then ""
    else if |ts| == 1 then ts[0]
    else Joined(ts[..|ts| - 1]) + "," + ts[|ts| - 1]
  }

  /** The target string of a subgraph description. */
  function Target(vs: seq<VertexRef>): string
  {
    Joined(Tokens(vs))
  }

  /** The content flag: the subgraph names its vertices by content labels only. */
  predicate ContentOnly(vs: seq<VertexRef>)
  {
    forall i :: 0 <= i < |vs| ==> vs[i].index == 0
  }

  /** Joining one more token adds a comma and the token. */
  lemma JoinedSnoc(ts: seq<string>, t: string)
    ensures Joined(ts + [t]) == if ts == [] then t else Joined(ts) + "," + t
  {
    assert (ts + [t])[..|ts|] == ts;
  }

  /** One more vertex keeps the content flag only if it is named by content. */
  lemma ContentOnlySnoc(vs: seq<VertexRef>, i: nat)
    requires i < |vs|
    ensures ContentOnly(vs[..i + 1]) <==> ContentOnly(vs[..i]) && vs[i].index == 0
  {
    assert forall j :: 0 <= j < i ==> vs[..i + 1][j] == vs[..i][j];
  }

  /** The inner loop of `execute`: it builds the comma-separated target and the
      content flag, and rebinds `graph` at every vertex, so a subgraph without
      vertices leaves `graph` as it was. `content` starts true and is cleared at
      the first indexed vertex, never set back. */

  method BuildTarget(vs: seq<VertexRef>, graphBefore: Option<string>) returns (graph: Option<string>, content: bool)
    ensures graph == if vs == [] then graphBefore else Some(Target(vs))
    ensures content == ContentOnly(vs)
  {
    graph := graphBefore;
    var vertices := "";
    content := true;
    ghost var ts := Tokens(vs);
    var i := 0;
    while i < |vs|
      invariant 0 <= i <= |vs|
      invariant vertices == TargetSoFar(ts, i)
      invariant graph == if i == 0 then graphBefore else Some(vertices)
      invariant content == ContentOnly(vs[..i])
    {
      ContentOnlySnoc(vs, i);
      TargetSoFarStep(ts, i);
      var vertex := vs[i];
      if vertex.index != 0 {
        vertices := vertices + IntToString(vertex.index);
        content := false;
      } else {
        vertices := vertices + vertex.content;
      }
      if i < |vs| - 1 {
        vertices := vertices + ",";
      }
      graph := Some(vertices);
      i := i + 1;
    }
    assert ts[..i] == ts && vs[..i] == vs;
  }

  /** The target text after i vertices: the first i tokens joined, with the comma that
      precedes the next token when one follows. */
  ghost function TargetSoFar(ts: seq<string>, i: nat): string
    requires i <= |ts|
  {
    if i == 0 then "" else if i < |ts| then Joined(ts[..i]) + "," else Joined(ts[..i])
  }

  lemma TargetSoFarStep(ts: seq<string>, i: nat)
    requires i < |ts|
    ensures TargetSoFar(ts, i + 1) == TargetSoFar(ts, i) + ts[i] + (if i < |ts| - 1 then "," else "")
  {
    assert ts[..i + 1] == ts[..i] + [ts[i]];
    JoinedSnoc(ts[..i], ts[i]);
  }

  // ---------------------------------------------------------------------------
  // execute_one

  /** One attribute dictionary per criterion, in order. */
  function CriteriaMaps(criteria: seq<CstNode>): (ms: seq<PropertyMap>)
    ensures |ms| == |criteria|
  {
    seq(|criteria|, i requires 0 <= i < |criteria| => MapOf(VisibleAttrs(criteria[i].attrs)))
  }

  /** What `execute_one(layout, graph)` returns. */
  function ExecuteOneSpec(layout: LayoutType, graph: string): Result<Option<MLayoutGraph>, Fault>
  {
    var kind := layout.howToLayout;
    if kind == "algorithm" then
      match AlgorithmAttrs(layout.algorithm.attrs)
      case Failure(f) => Failure(f)
      case Success(ps) =>
        Success(Some(NewLayoutGraph(graph := Some(graph), layoutType := Some(kind), algorithm := Some(MapOf(ps)))))
    else if kind == "style" then
      Success(Some(NewLayoutGraph(graph := Some(graph), layoutType := Some(kind), style := layout.style)))
    else if kind == "criteria" then
      Success(Some(NewLayoutGraph(graph := Some(graph), layoutType := Some(kind),
                                  aestheticCriteria := Some(CriteriaMaps(layout.aestheticCriteria)))))
    else Success(None)
  }

  /** Stores every visible attribute of one model object into a dictionary. */
  method PutVisible(d: PropertyMap, ghost ps: seq<Pair>, attrs: seq<Attr>) returns (r: PropertyMap)
    requires d == MapOf(ps)
    ensures r == MapOf(ps + VisibleAttrs(attrs))
  {
    r := d;
    var k := 0;
    assert ps + VisibleAttrs(attrs[..0]) == ps;
    while k < |attrs|
      invariant 0 <= k <= |attrs|
      invariant r == MapOf(ps + VisibleAttrs(attrs[..k]))
    {
      var a := attrs[k];
      assert attrs[..k + 1][..k] == attrs[..k];
      if !Skipped(a.name) {
        MapOfSnoc(ps + VisibleAttrs(attrs[..k]), (a.name, a.value));
        assert ps + VisibleAttrs(attrs[..k + 1]) == ps + VisibleAttrs(attrs[..k]) + [(a.name, a.value)];
        r := r[a.name := a.value];
      } else {
        assert ps + VisibleAttrs(attrs[..k + 1]) == ps + VisibleAttrs(attrs[..k]);
      }
      k := k + 1;
    }
    assert attrs[..k] == attrs;
  }

  /** The `properties` loop: every visible attribute of every property object. */
  method PutProperties(d: PropertyMap, ghost ps: seq<Pair>, nodes: seq<CstNode>) returns (r: PropertyMap)
    requires d == MapOf(ps)
    ensures r == MapOf(ps + NodesVisibleAttrs(nodes))
  {
    r := d;
    var j := 0;
    assert ps + NodesVisibleAttrs(nodes[..0]) == ps;
    while j < |nodes|
      invariant 0 <= j <= |nodes|
      invariant r == MapOf(ps + NodesVisibleAttrs(nodes[..j]))
    {
      assert nodes[..j + 1][..j] == nodes[..j];
      r := PutVisible(r, ps + NodesVisibleAttrs(nodes[..j]), nodes[j].attrs);
      assert ps + NodesVisibleAttrs(nodes[..j + 1]) == ps + NodesVisibleAttrs(nodes[..j]) + VisibleAttrs(nodes[j].attrs);
      j := j + 1;
    }
    assert nodes[..j] == nodes;
  }

  /** `execute_one`: the directive for one layout type and target. */
  method ExecuteOne(layout: LayoutType, graph: string) returns (r: Result<Option<MLayoutGraph>, Fault>)
    ensures r == ExecuteOneSpec(layout, graph)
  {
    var kind := layout.howToLayout;
    if kind == "algorithm" {
      var properties := AlgorithmProperties(layout.algorithm.attrs);
      if properties.Failure? {
        return Failure(properties.error);
      }
      r := Success(Some(NewLayoutGraph(graph := Some(graph), layoutType := Some(kind), algorithm := Some(properties.value))));
    } else if kind == "style" {
      r := Success(Some(NewLayoutGraph(graph := Some(graph), layoutType := Some(kind), style := layout.style)));
    } else if kind == "criteria" {
      var criteriaList := CriteriaList(layout.aestheticCriteria);
      r := Success(Some(NewLayoutGraph(graph := Some(graph), layoutType := Some(kind), aestheticCriteria := Some(criteriaList))));
    } else {
      r := Success(None);
    }
  }

  /** The algorithm branch of `execute_one`: the attributes of the algorithm object,
      with those of its property objects spliced in where `properties` appears. */
  method AlgorithmProperties(attrs: seq<Attr>) returns (r: Result<PropertyMap, Fault>)
    ensures AlgorithmAttrs(attrs).Failure? ==> r == Failure(AlgorithmAttrs(attrs).error)
    ensures AlgorithmAttrs(attrs).Success? ==> r == Success(MapOf(AlgorithmAttrs(attrs).value))
  {
    var properties: PropertyMap := map[];
    ghost var ps: seq<Pair> := [];
    var i := 0;
    while i < |attrs|
      invariant 0 <= i <= |attrs|
      invariant AlgorithmAttrs(attrs[..i]) == Success(ps)
      invariant properties == MapOf(ps)
    {
      var a := attrs[i];
      AlgorithmAttrsPrefix(attrs, i, ps);
      if !Skipped(a.name) {
        if a.name == "properties" {
          match a.value {
            case NodesV(nodes) =>
              properties := PutProperties(properties, ps, nodes);
              ps := ps + NodesVisibleAttrs(nodes);
            case StrV(s) =>
              if s != "" {
                AlgorithmAttrsFailurePersists(attrs, i + 1);
                return Failure(AttributeError("__dict__"));
              }
              assert ps + [] == ps;
            case _ =>
              AlgorithmAttrsFailurePersists(attrs, i + 1);
              return Failure(TypeError("properties is not iterable"));
          }
        } else {
          MapOfSnoc(ps, (a.name, a.value));
          properties := properties[a.name := a.value];
          ps := ps + [(a.name, a.value)];
        }
      }
      i := i + 1;
    }
    assert attrs[..i] == attrs;
    r := Success(properties);
  }

  /** The criteria branch of `execute_one`: one dictionary per criterion, in order. */
  method CriteriaList(criteria: seq<CstNode>) returns (criteriaList: seq<PropertyMap>)
    ensures criteriaList == CriteriaMaps(criteria)
  {
    criteriaList := [];
    var i := 0;
    while i < |criteria|
      invariant 0 <= i <= |criteria|
      invariant |criteriaList| == i
      invariant forall j :: 0 <= j < i ==> criteriaList[j] == MapOf(VisibleAttrs(criteria[j].attrs))
    {
      var criterionProperties := PutVisible(map[], [], criteria[i].attrs);
      assert [] + VisibleAttrs(criteria[i].attrs) == VisibleAttrs(criteria[i].attrs);
      criteriaList := criteriaList + [criterionProperties];
      i := i + 1;
    }
  }

  // ---------------------------------------------------------------------------
  // execute

  /** The function-scope locals `graph` and `content` (None while unbound) and
      the directives collected so far. */
  datatype LoopState = LoopState(graph: Option<string>, content: Option<bool>, subgraphs: seq<MLayoutGraph>)

  /** One iteration of the loop over `layoutSubgraphs`. The right-hand side
      `content` is evaluated before the attribute is set on the directive. */
  function RunEntry(st: LoopState, e: LayoutSubgraph): Result<LoopState, Fault>
  {
    var graph := match e.subgraph
      case None => Some("others")
      case Some(sg) => if sg.vertices == [] then st.graph else Some(Target(sg.vertices));
    var content := match e.subgraph
      case None => st.content
      case Some(sg) => Some(ContentOnly(sg.vertices));
    if graph.None? then Failure(UnboundLocalError("graph"))
    else
      match ExecuteOneSpec(e.layoutType, graph.value)
      case Failure(f) => Failure(f)
      case Success(one) =>
        if content.None? then Failure(UnboundLocalError("content"))
        else if one.None? then Failure(AttributeError("attr_graphContent"))
        else Success(LoopState(graph, content, st.subgraphs + [one.value.(graphContent := content.value)]))
  }

  function RunEntries(es: seq<LayoutSubgraph>): Result<LoopState, Fault>
  {
    if es == [] then Success(LoopState(None, None, []))
    else
      match RunEntries(es[..|es| - 1])
      case Failure(f) => Failure(f)
      case Success(st) => RunEntry(st, es[|es| - 1])
  }

  /** What `execute` returns for a parse result. */
  function ExecuteSpec(model: ParsedModel): Result<Executed, Fault>
  {
    match model
    case SyntaxError(message) => Success(Single(Some(NewLayoutGraph(exception := message))))
    case LayoutGraphModel(layoutType) =>
      (match ExecuteOneSpec(layoutType, "graph")
       case Failure(f) => Failure(f)
       case Success(one) => Success(Single(one)))
    case LayoutSubgraphsModel(es) =>
      match RunEntries(es)
      case Failure(f) => Failure(f)
      case Success(st) => Success(Several(MLayoutSubgraphs(st.subgraphs)))
  }

  lemma {:induction false} RunEntriesFailurePersists(es: seq<LayoutSubgraph>, i: nat)
    requires i <= |es| && RunEntries(es[..i]).Failure?
    ensures RunEntries(es) == RunEntries(es[..i])
    decreases |es| - i
  {
    if i < |es| {
      assert es[..i + 1][..i] == es[..i];
      RunEntriesFailurePersists(es, i + 1);
    } else {
      assert es[..i] == es;
    }
  }

  lemma RunEntriesPrefix(es: seq<LayoutSubgraph>, i: nat, st: LoopState)
    requires i < |es| && RunEntries(es[..i]) == Success(st)
    ensures RunEntries(es[..i + 1]) == RunEntry(st, es[i])
  {
    assert es[..i + 1][..i] == es[..i];
  }

  /** The body of the loop over `layoutSubgraphs`, for one entry. */
  method ExecuteEntry(st: LoopState, e: LayoutSubgraph) returns (r: Result<LoopState, Fault>)
    ensures r == RunEntry(st, e)
  {
    var graph := st.graph;
    var content := st.content;
    match e.subgraph {
      case None =>
        graph := Some("others");
      case Some(sg) =>
        var c;
        graph, c := BuildTarget(sg.vertices, graph);
        content := Some(c);
    }
    if graph.None? {
      return Failure(UnboundLocalError("graph"));
    }
    var one := ExecuteOne(e.layoutType, graph.value);
    if one.Failure? {
      return Failure(one.error);
    }
    if content.None? {
      return Failure(UnboundLocalError("content"));
    }
    if one.value.None? {
      return Failure(AttributeError("attr_graphContent"));
    }
    r := Success(LoopState(graph, content, st.subgraphs + [one.value.value.(graphContent := content.value)]));
  }

  /** `execute`: a syntax error becomes a directive carrying only its message; a
      single-graph model becomes one directive for target "graph"; a subgraph
      model becomes one directive per entry. */
  method Execute(model: ParsedModel) returns (r: Result<Executed, Fault>)
    ensures r == ExecuteSpec(model)
    ensures model.SyntaxError? ==> r == Success(Single(Some(NewLayoutGraph(exception := model.message))))
  {
    match model {
      case SyntaxError(message) =>
        return Success(Single(Some(NewLayoutGraph(exception := message))));
      case LayoutGraphModel(layoutType) =>
        var one := ExecuteOne(layoutType, "graph");
        if one.Failure? {
          return Failure(one.error);
        }
        return Success(Single(one.value));
      case LayoutSubgraphsModel(es) =>
        var subgraphs: seq<MLayoutGraph> := [];
        var graph: Option<string> := None;
        var content: Option<bool> := None;
        var i := 0;
        while i < |es|
          invariant 0 <= i <= |es|
          invariant RunEntries(es[..i]) == Success(LoopState(graph, content, subgraphs))
        {
          RunEntriesPrefix(es, i, LoopState(graph, content, subgraphs));
          var next := ExecuteEntry(LoopState(graph, content, subgraphs), es[i]);
          if next.Failure? {
            RunEntriesFailurePersists(es, i + 1);
            return Failure(next.error);
          }
          graph, content, subgraphs := next.value.graph, next.value.content, next.value.subgraphs;
          i := i + 1;
        }
        assert es[..i] == es;
        return Success(Several(MLayoutSubgraphs(subgraphs)));
    }
  }

  // ---------------------------------------------------------------------------
  // Properties of execute

  /** A single-graph model yields exactly one directive, whose target is "graph"
      and whose type is the layout type's `howToLayout`. */
  lemma SingleGraphTarget(lt: LayoutType)
    requires ExecuteSpec(LayoutGraphModel(lt)).Success?
    requires ExecuteSpec(LayoutGraphModel(lt)).value.directive.Some?
    ensures ExecuteSpec(LayoutGraphModel(lt)).value.Single?
    ensures ExecuteSpec(LayoutGraphModel(lt)).value.directive.value.graph == Some("graph")
    ensures ExecuteSpec(LayoutGraphModel(lt)).value.directive.value.layoutType == Some(lt.howToLayout)
  {
  }

  /** The directive for a recognised layout type has that type and target; an
      unrecognised type gives no directive. */
  lemma {:induction false} ExecuteOneKinds(lt: LayoutType, graph: string)
    ensures var r := ExecuteOneSpec(lt, graph);
      (lt.howToLayout in {"algorithm", "style", "criteria"}) <==> (r.Success? ==> r.value.Some?)
    ensures var r := ExecuteOneSpec(lt, graph);
      r.Success? && r.value.Some? ==> r.value.value.graph == Some(graph) && r.value.value.layoutType == Some(lt.howToLayout)
    ensures lt.howToLayout != "algorithm" ==> ExecuteOneSpec(lt, graph).Success?
  {
  }

  /** Directive d was built for entry e: it has e's layout type; its target is
      "others" for the entry without subgraph and the comma-joined tokens for a
      subgraph with vertices; its content flag is that of e's subgraph, if any. */
  predicate BuiltFor(d: MLayoutGraph, e: LayoutSubgraph)
  {
    && d.layoutType == Some(e.layoutType.howToLayout)
    && (e.subgraph.None? ==> d.graph == Some("others"))
    && (e.subgraph.Some? && e.subgraph.value.vertices != [] ==> d.graph == Some(Target(e.subgraph.value.vertices)))
    && (e.subgraph.Some? ==> d.graphContent == ContentOnly(e.subgraph.value.vertices))
  }

  lemma RunEntryFacts(st: LoopState, e: LayoutSubgraph)
    requires RunEntry(st, e).Success?
    ensures var next := RunEntry(st, e).value;
      && |next.subgraphs| == |st.subgraphs| + 1
      && next.subgraphs[..|st.subgraphs|] == st.subgraphs
      && BuiltFor(next.subgraphs[|st.subgraphs|], e)
      && next.content == Some(next.subgraphs[|st.subgraphs|].graphContent)
      && (e.subgraph.None? ==> next.content == st.content)
  {
    var graph := match e.subgraph
      case None => Some("others")
      case Some(sg) => if sg.vertices == [] then st.graph else Some(Target(sg.vertices));
    ExecuteOneKinds(e.layoutType, graph.value);
  }

  /** In a successful run over the subgraph entries, directive i was built for
      entry i: one directive per entry, in source order. An entry without
      subgraph does not rebind `content`, so its directive carries the content
      flag of the directive before it. */
  lemma {:induction false} EntriesInOrder(es: seq<LayoutSubgraph>)
    requires RunEntries(es).Success?
    ensures |RunEntries(es).value.subgraphs| == |es|
    ensures forall i :: 0 <= i < |es| ==> BuiltFor(RunEntries(es).value.subgraphs[i], es[i])
    ensures forall i :: 0 < i < |es| && es[i].subgraph.None? ==>
      RunEntries(es).value.subgraphs[i].graphContent == RunEntries(es).value.subgraphs[i - 1].graphContent
    ensures es != [] ==> RunEntries(es).value.content == Some(RunEntries(es).value.subgraphs[|es| - 1].graphContent)
  {
    if es != [] {
      var n := |es| - 1;
      var pre := es[..n];
      assert RunEntries(pre).Success?;
      EntriesInOrder(pre);
      var st := RunEntries(pre).value;
      assert RunEntries(es) == RunEntry(st, es[n]);
      RunEntryFacts(st, es[n]);
      var next := RunEntry(st, es[n]).value;
      var ds := next.subgraphs;
      assert forall i :: 0 <= i < n ==> ds[i] == st.subgraphs[i];
      forall i | 0 <= i < |es|
        ensures BuiltFor(ds[i], es[i])
      {
        if i < n {
          assert pre[i] == es[i];
        }
      }
      forall i | 0 < i < |es| && es[i].subgraph.None?
        ensures ds[i].graphContent == ds[i - 1].graphContent
      {
        if i < n {
          assert pre[i] == es[i];
        }
      }
    }
  }

  /** An `others` entry placed first fails: `content` has not been bound yet. */
  lemma FirstOthersEntryFails(es: seq<LayoutSubgraph>)
    requires es != [] && es[0].subgraph.None?
    ensures ExecuteSpec(LayoutSubgraphsModel(es)).Failure?
  {
    assert es[..0] == [];
    RunEntriesPrefix(es, 0, LoopState(None, None, []));
    RunEntriesFailurePersists(es, 1);
  }

  /** The criterion objects of the interpreter's criteria test, with the
      attributes textX adds for itself. */
  function AngleCriterion(pos: Value, parent: Value): CstNode
  {
    CstNode([Attr("_tx_position", pos), Attr("parent", parent), Attr("criterion", StrV("angle")), Attr("threshold", IntV(5))])
  }

  function FlowCriterion(parent: Value): CstNode
  {
    CstNode([Attr("parent", parent), Attr("criterion", StrV("flow")), Attr("direction", StrV("left"))])
  }

  function DistributeCriterion(parent: Value): CstNode
  {
    CstNode([Attr("parent", parent), Attr("criterion", StrV("distribute"))])
  }

  lemma AngleCriterionMap(pos: Value, parent: Value)
    ensures MapOf(VisibleAttrs(AngleCriterion(pos, parent).attrs)) == map["criterion" := StrV("angle"), "threshold" := IntV(5)]
  {
    var a0, a1 := Attr("_tx_position", pos), Attr("parent", parent);
    var a2, a3 := Attr("criterion", StrV("angle")), Attr("threshold", IntV(5));
    VisibleAttrsSnoc([], a0);
    VisibleAttrsSnoc([a0], a1);
    VisibleAttrsSnoc([a0, a1], a2);
    VisibleAttrsSnoc([a0, a1, a2], a3);
    assert [] + [a0] == [a0] && [a0] + [a1] == [a0, a1] && [a0, a1] + [a2] == [a0, a1, a2];
    assert [a0, a1, a2] + [a3] == [a0, a1, a2, a3];
    assert VisibleAttrs([a0, a1, a2, a3]) == [("criterion", StrV("angle"))] + [("threshold", IntV(5))];
    MapOfSnoc([], ("criterion", StrV("angle")));
    assert [] + [("criterion", StrV("angle"))] == [("criterion", StrV("angle"))];
    MapOfSnoc([("criterion", StrV("angle"))], ("threshold", IntV(5)));
  }

  lemma FlowCriterionMap(parent: Value)
    ensures MapOf(VisibleAttrs(FlowCriterion(parent).attrs)) == map["criterion" := StrV("flow"), "direction" := StrV("left")]
  {
    var a1, f1, f2 := Attr("parent", parent), Attr("criterion", StrV("flow")), Attr("direction", StrV("left"));
    VisibleAttrsSnoc([], a1);
    VisibleAttrsSnoc([a1], f1);
    VisibleAttrsSnoc([a1, f1], f2);
    assert [] + [a1] == [a1] && [a1] + [f1] == [a1, f1] && [a1, f1] + [f2] == [a1, f1, f2];
    assert VisibleAttrs([a1, f1, f2]) == [("criterion", StrV("flow"))] + [("direction", StrV("left"))];
    MapOfSnoc([], ("criterion", StrV("flow")));
    assert [] + [("criterion", StrV("flow"))] == [("criterion", StrV("flow"))];
    MapOfSnoc([("criterion", StrV("flow"))], ("direction", StrV("left")));
  }

  lemma DistributeCriterionMap(parent: Value)
    ensures MapOf(VisibleAttrs(DistributeCriterion(parent).attrs)) == map["criterion" := StrV("distribute")]
  {
    var a1, d1 := Attr("parent", parent), Attr("criterion", StrV("distribute"));
    VisibleAttrsSnoc([], a1);
    VisibleAttrsSnoc([a1], d1);
    assert [] + [a1] == [a1] && [a1] + [d1] == [a1, d1];
    assert VisibleAttrs([a1, d1]) == [] + [("criterion", StrV("distribute"))];
    MapOfSnoc([], ("criterion", StrV("distribute")));
  }

  /** The criteria example of the interpreter's tests: three criteria give three
      dictionaries, in order, holding `angle` (with threshold 5), `flow` (with
      direction left) and `distribute`. */
  lemma CriteriaExample(pos: Value, parent: Value)
    ensures var criteria := [AngleCriterion(pos, parent), FlowCriterion(parent), DistributeCriterion(parent)];
      var r := ExecuteSpec(LayoutGraphModel(LayoutType("criteria", CstNode([]), "", criteria)));
      && r.Success? && r.value.Single? && r.value.directive.Some?
      && r.value.directive.value.aestheticCriteria == Some([
           map["criterion" := StrV("angle"), "threshold" := IntV(5)],
           map["criterion" := StrV("flow"), "direction" := StrV("left")],
           map["criterion" := StrV("distribute")]])
  {
    AngleCriterionMap(pos, parent);
    FlowCriterionMap(parent);
    DistributeCriterionMap(parent);
    var criteria := [AngleCriterion(pos, parent), FlowCriterion(parent), DistributeCriterion(parent)];
    assert CriteriaMaps(criteria) == [
           map["criterion" := StrV("angle"), "threshold" := IntV(5)],
           map["criterion" := StrV("flow"), "direction" := StrV("left")],
           map["criterion" := StrV("distribute")]];
  }
}
