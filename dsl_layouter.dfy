/** The consumer of layout directives (GraphDrawingTheory/src/graph/layout/dsl/DSLLayouter.java):
    it splits each subgraph target back into vertices, maps a directive to a
    layout algorithm and its properties, and places the drawings of the
    subgraphs side by side.

    The drawing itself (Layouter, Drawing and the JUNG/JGraphX layouts behind
    them) is not modelled: `Layout` yields the plan of which vertices are laid
    out under which directive, and `Positioner` receives each drawing's
    measurements as numbers. */
module DSLLayouter {
  import opened Wrappers
  import opened PythonModels
  import Interpreter
  import opened GraphElements

  /** Java exceptions that `layout` and `selectLayout` let propagate. */
  datatype JavaFault =
    | DSLException(message: string)
    | NullPointerException
    | ClassCastException
    | NumberFormatException
    | IndexOutOfBoundsException

  // ---------------------------------------------------------------------------
  // String.split(",") and Integer.parseInt

  predicate CommaFree(s: string)
  {
    forall i :: 0 <= i < |s| ==> s[i] != ','
  }

  /** The pieces of s between commas, all of them kept: one more than there are commas. */
  function SplitAll(s: string): (ps: seq<string>)
    ensures |ps| >= 1
  {
    if s == [] then [""]
    else if s[0] == ',' then [""] + SplitAll(s[1..])
    else
      var rest := SplitAll(s[1..]);
      [[s[0]] + rest[0]] + rest[1..]
  }

  function DropTrailingEmpty(ps: seq<string>): seq<string>
  {
    if ps != [] && ps[|ps| - 1] == "" then DropTrailingEmpty(ps[..|ps| - 1]) else ps
  }

  /** Java's `s.split(",")`: a string without commas gives itself (even ""), and
      otherwise the pieces lose their trailing empty strings. */
  function JavaSplit(s: string): seq<string>
  {
    if CommaFree(s) then [s] else DropTrailingEmpty(SplitAll(s))
  }

  lemma {:induction false} SplitAllCommaFree(t: string)
    requires CommaFree(t)
    ensures SplitAll(t) == [t]
  {
    if t != [] {
      SplitAllCommaFree(t[1..]);
      assert t[0] != ',';
      assert [t[0]] + t[1..] == t;
    }
  }

  lemma {:induction false} SplitAllAppend(x: string, y: string)
    ensures SplitAll(x + [','] + y) == SplitAll(x) + SplitAll(y)
  {
    if x == [] {
      assert [] + [','] + y == [','] + y;
      assert ([','] + y)[1..] == y;
    } else {
      assert (x + [','] + y)[1..] == x[1..] + [','] + y;
      SplitAllAppend(x[1..], y);
    }
  }

  /** The pieces of a joined target are its tokens, when no token holds a comma. */
  lemma {:induction false} SplitAllJoined(ts: seq<string>)
    requires ts != [] && forall i :: 0 <= i < |ts| ==> CommaFree(ts[i])
    ensures SplitAll(Interpreter.Joined(ts)) == ts
  {
    if |ts| == 1 {
      SplitAllCommaFree(ts[0]);
    } else {
      var pre := ts[..|ts| - 1];
      SplitAllJoined(pre);
      SplitAllAppend(Interpreter.Joined(pre), ts[|ts| - 1]);
      SplitAllCommaFree(ts[|ts| - 1]);
      assert Interpreter.Joined(ts) == Interpreter.Joined(pre) + [','] + ts[|ts| - 1];
      assert pre + [ts[|ts| - 1]] == ts;
    }
  }

  /** `split(",")` undoes the interpreter's joining of comma-free tokens unless the
      last of several tokens is empty. */
  lemma JavaSplitJoined(ts: seq<string>)
    requires ts != [] && forall i :: 0 <= i < |ts| ==> CommaFree(ts[i])
    requires |ts| == 1 || ts[|ts| - 1] != ""
    ensures JavaSplit(Interpreter.Joined(ts)) == ts
  {
    SplitAllJoined(ts);
    if |ts| > 1 {
      var j := Interpreter.Joined(ts);
      assert j == Interpreter.Joined(ts[..|ts| - 1]) + "," + ts[|ts| - 1];
      assert j[|Interpreter.Joined(ts[..|ts| - 1])|] == ',';
      assert !CommaFree(j);
    }
  }

  /** An empty last token is lost: the target "1," that the interpreter writes for
      the vertices 1 and then an unindexed vertex with empty content splits into ["1"]. */
  lemma JavaSplitDropsTrailingToken()
    ensures Interpreter.Joined(["1", ""]) == "1,"
    ensures JavaSplit("1,") == ["1"]
  {
    assert ["1", ""][..1] == ["1"];
    assert !CommaFree("1,") by { assert "1,"[1] == ','; }
    assert "1,"[1..] == ",";
    assert ","[1..] == "";
    assert SplitAll(",") == ["", ""];
    assert ['1'] + "" == "1";
    assert SplitAll("1,") == ["1", ""];
    assert ["1", ""][..1] == ["1"];
  }

  predicate IsDigit(c: char) { '0' <= c <= '9' }

  function DigitsValue(ds: string): nat
    requires forall i :: 0 <= i < |ds| ==> IsDigit(ds[i])
  {
    if ds == [] then 0
    else
      var last := ds[|ds| - 1];
      assert IsDigit(last);
      DigitsValue(ds[..|ds| - 1]) * 10 + (last as int - '0' as int)
  }

  const IntMin: int := -0x8000_0000
  const IntMax: int := 0x7fff_ffff

  /** Java's `Integer.parseInt`: an optional sign and at least one decimal digit,
      with a value inside the 32-bit range; anything else is NumberFormatException. */
  function ParseInt(s: string): Option<int>
  {
    if s == [] then None
    else
      var negative := s[0] == '-';
      var digits := if s[0] == '-' || s[0] == '+' then s[1..] else s;
      if digits == [] || !(forall i :: 0 <= i < |digits| ==> IsDigit(digits[i])) then None
      else
        var v: int := if negative then -(DigitsValue(digits) as int) else DigitsValue(digits);
        if IntMin <= v <= IntMax then Some(v) else None
  }

  lemma {:induction false} DigitsOfNat(n: nat)
    ensures DigitsValue(Interpreter.NatToString(n)) == n
  {
    var s := Interpreter.NatToString(n);
    if n < 10 {
      assert s == [Interpreter.DigitChar(n)];
      assert s[..0] == [];
      assert "0123456789"[n] as int - '0' as int == n;
    } else {
      DigitsOfNat(n / 10);
      assert s[..|s| - 1] == Interpreter.NatToString(n / 10);
      assert "0123456789"[n % 10] as int - '0' as int == n % 10;
    }
  }

  /** An unsigned run of digits parses to its value when that fits in an int. */
  lemma ParseIntOfDigits(ds: string)
    requires ds != [] && forall k :: 0 <= k < |ds| ==> IsDigit(ds[k])
    requires DigitsValue(ds) <= IntMax
    ensures ParseInt(ds) == Some(DigitsValue(ds))
  {
    assert IsDigit(ds[0]);
  }

  /** A minus sign before a run of digits parses to the negated value when that fits. */
  lemma ParseIntOfNegatedDigits(ds: string)
    requires ds != [] && forall k :: 0 <= k < |ds| ==> IsDigit(ds[k])
    requires DigitsValue(ds) <= -IntMin
    ensures ParseInt("-" + ds) == Some(-(DigitsValue(ds) as int))
  {
    assert ("-" + ds)[0] == '-';
    assert ("-" + ds)[1..] == ds;
  }

  /** `parseInt` reads back what Python's `str` wrote, for every 32-bit index. */
  lemma ParseIntOfIntToString(i: int)
    requires IntMin <= i <= IntMax
    ensures ParseInt(Interpreter.IntToString(i)) == Some(i)
  {
    if i < 0 {
      var n: nat := -i;
      var ds := Interpreter.NatToString(n);
      DigitsOfNat(n);
      ParseIntOfNegatedDigits(ds);
      assert Interpreter.IntToString(i) == "-" + ds;
    } else {
      var n: nat := i;
      var ds := Interpreter.NatToString(n);
      DigitsOfNat(n);
      ParseIntOfDigits(ds);
      assert Interpreter.IntToString(i) == ds;
    }
  }

  // ---------------------------------------------------------------------------
  // selectLayout: from a directive to an algorithm and its properties

  /** The constants of LayoutAlgorithms that selectLayout can name. */
  datatype Algorithm =
    | RadialTree | Tree | CompactTree | NodeLinkTree | Balloon | Hierarchical | Circle
    | KamadaKawai | FruchtermanReingold | Spring | FastOrganic | Organic | Box | Concentric
    | Automatic | Isom | Convex

  /** The property enums of PropertyEnums that selectLayout writes to. */
  datatype Family =
    | RadialTreeProperties | TreeProperties | CompactTreeProperties | NodeLinkTreeProperties
    | BalloonProperties | HierarchicalProperties | CircleProperties | KamadaKawaiProperties
    | FruchtermanReingoldProperties | SpringProperties | FastOrganicProperties
    | OrganicProperties | BoxProperties

  /** One constant of a property enum: constants of different enums are different keys. */
  datatype PropertyKey = PropertyKey(family: Family, name: string)

  /** A property value: copied unchanged from the directive, or a constant of the layouter. */
  datatype PropertyValue = Copied(value: Value) | IntProperty(n: int) | BoolProperty(b: bool)

  /** GraphLayoutProperties: the defaults that DefaultGraphLayoutProperties gives one
      algorithm (when the properties start from them), overridden by explicit settings. */
  datatype Properties = Properties(defaultsFor: Option<Algorithm>, settings: map<PropertyKey, PropertyValue>)

  /** The pair selectLayout returns: the algorithm (null when an algorithm name matches
      nothing) and its properties (null for the automatic style). */
  datatype Selection = Selection(algorithm: Option<Algorithm>, properties: Option<Properties>)

  /** What selectLayout learns from the graph it forms: its size, whether it is a tree
      (GraphProperties.isTree) and whether ConvexDrawing.execute returns without throwing. */
  datatype GraphFacts = GraphFacts(vertexCount: nat, edgeCount: nat, tree: bool, convexDrawable: bool)

  const BigGraphVertices: nat := 1000
  const BigGraphEdges: nat := 2000

  predicate Big(f: GraphFacts)
  {
    f.vertexCount >= BigGraphVertices && f.edgeCount >= BigGraphEdges
  }

  /** A graph is big only when it reaches both thresholds. */
  lemma BigNeedsBothThresholds(f: GraphFacts)
    ensures Big(f) <==> f.vertexCount >= 1000 && f.edgeCount >= 2000
    ensures f.vertexCount < 1000 ==> !Big(f)
    ensures f.edgeCount < 2000 ==> !Big(f)
  {
  }

  /** A row of a copy table: an attribute of the directive and the property it goes to. */
  type CopyRow = (string, PropertyKey)

  /** The `if (algorithm.containsKey(a)) setProperty(k, algorithm.get(a))` chain of one
      algorithm, applied row by row. */
  function CopyProperties(algorithm: PropertyMap, table: seq<CopyRow>): map<PropertyKey, PropertyValue>
  {
    if table == [] then map[]
    else
      var settings := CopyProperties(algorithm, table[..|table| - 1]);
      var row := table[|table| - 1];
      if row.0 in algorithm then settings[row.1 := Copied(algorithm[row.0])] else settings
  }

  predicate DistinctKeys(table: seq<CopyRow>)
  {
    forall i, j :: 0 <= i < j < |table| ==> table[i].1 != table[j].1
  }

  /** A property is set exactly when its attribute is present, to that attribute's value. */
  lemma {:induction false} CopyPropertiesSpec(algorithm: PropertyMap, table: seq<CopyRow>)
    requires DistinctKeys(table)
    ensures CopyProperties(algorithm, table).Keys == (set i | 0 <= i < |table| && table[i].0 in algorithm :: table[i].1)
    ensures forall i :: 0 <= i < |table| && table[i].0 in algorithm ==>
              CopyProperties(algorithm, table)[table[i].1] == Copied(algorithm[table[i].0])
  {
    if table != [] {
      var pre := table[..|table| - 1];
      CopyPropertiesSpec(algorithm, pre);
      assert forall i :: 0 <= i < |pre| ==> pre[i] == table[i];
    }
  }

  function Key(family: Family, name: string): PropertyKey { PropertyKey(family, name) }

  // The copy tables of the algorithm branch, one per algorithm name.
  const RadialTable: seq<CopyRow> :=
    [("xDist", Key(RadialTreeProperties, "X_DISTANCE")), ("yDist", Key(RadialTreeProperties, "Y_DISTANCE"))]
  const LevelTable: seq<CopyRow> :=
    [("xDist", Key(TreeProperties, "X_DISTANCE")), ("yDist", Key(TreeProperties, "Y_DISTANCE"))]
  const CompactTable: seq<CopyRow> :=
    [("horizontal", Key(CompactTreeProperties, "HORIZONTAL")),
     ("invert", Key(CompactTreeProperties, "INVERT")),
     ("resizeParents", Key(CompactTreeProperties, "RESIZE_PARENTS")),
     ("levelDistance", Key(CompactTreeProperties, "LEVEL_DISTANCE")),
     ("nodeDistance", Key(CompactTreeProperties, "NODE_DISTANCE"))]
  const NodeTable: seq<CopyRow> :=
    [("spacingSiblings", Key(NodeLinkTreeProperties, "SPACING_SIBLINGS")),
     ("spacingSubtrees", Key(NodeLinkTreeProperties, "SPACING_SUBTREES")),
     ("spacingLevels", Key(NodeLinkTreeProperties, "SPACING_DEPTH_LEVELS")),
     ("offsetRootNode", Key(NodeLinkTreeProperties, "SPACING_ROOT_NODE"))]
  const BalloonTable: seq<CopyRow> :=
    [("minRadius", Key(BalloonProperties, "MIN_RADIUS"))]
  const HierarchicalTable: seq<CopyRow> :=
    [("resizeParent", Key(HierarchicalProperties, "RESIZE_PARENT")),
     ("moveParent", Key(HierarchicalProperties, "MOVE_PARENT")),
     ("parentBorder", Key(HierarchicalProperties, "PARENT_BORDER")),
     ("intraCellSpacing", Key(HierarchicalProperties, "INTRA_CELL_SPACING")),
     ("interRankSpacing", Key(HierarchicalProperties, "INTER_RANK_CELL_SPACING")),
     ("interHierarchySpacing", Key(HierarchicalProperties, "INTER_HIERARCHY_SPACING")),
     ("parallelEdgesSpacing", Key(HierarchicalProperties, "PARALLEL_EDGE_SPACING")),
     ("fineTune", Key(HierarchicalProperties, "FINE_TUNING"))]
  const CircularTable: seq<CopyRow> :=
    [("optimize", Key(CircleProperties, "OPTIMIZE_CROSSINGS")), ("dist", Key(CircleProperties, "DISTANCE"))]
  const KamadaTable: seq<CopyRow> :=
    [("distanceMultiplier", Key(KamadaKawaiProperties, "DISCONNECTED_DISTANCE_MULTIPLIER")),
     ("lengthFactor", Key(KamadaKawaiProperties, "LENGTH_FACTOR")),
     ("maxIterations", Key(KamadaKawaiProperties, "MAXIMUM_ITERATIONS"))]
  const FruchtermanTable: seq<CopyRow> :=
    [("attractionMultiplier", Key(FruchtermanReingoldProperties, "ATTRACTION_MULTIPLIER")),
     ("resolutionMultiplier", Key(FruchtermanReingoldProperties, "REPULSION_MULTIPLIER")),
     ("maxIterations", Key(FruchtermanReingoldProperties, "MAXIMUM_ITERATIONS"))]
  const SpringTable: seq<CopyRow> :=
    [("stretch", Key(SpringProperties, "STRETCH")),
     ("resolutionRange", Key(SpringProperties, "REPULSION_RANGE")),
     ("forceMultiplier", Key(SpringProperties, "FORCE_MULTIPLIER"))]
  const FastOrganicTable: seq<CopyRow> :=
    [("forceConstant", Key(FastOrganicProperties, "FORCE_CONSTANT")),
     ("minimalDistanceLimit", Key(FastOrganicProperties, "MINIMAL_DISTANCE_LIMIT")),
     ("initialTemperature", Key(FastOrganicProperties, "INITIAL_TEMP")),
     ("maxIterations", Key(FastOrganicProperties, "MAX_ITERATIONS"))]
  const OrganicTable: seq<CopyRow> :=
    [("optimizeEdgeCrossings", Key(OrganicProperties, "IS_OPTIMIZE_EDGE_CROSSING")),
     ("edgeCrossingFactor", Key(OrganicProperties, "EDGE_CROSSING_FACTOR")),
     ("optimizeEdgeDistance", Key(OrganicProperties, "IS_OPTIMIZE_EDGE_DISTANCE")),
     ("edgeDistanceFactor", Key(OrganicProperties, "EDGE_DISTANCE_FACTOR")),
     ("borderLineFactor", Key(OrganicProperties, "BORDER_LINE_FACTOR")),
     ("nodeDistributionFactor", Key(OrganicProperties, "NODE_DISTRIBUTION_FACTOR")),
     ("fineTune", Key(OrganicProperties, "IS_FINE_TUNING")),
     ("fineTuningRadius", Key(OrganicProperties, "FINE_TUNING_RADIUS")),
     ("averageNodeArea", Key(OrganicProperties, "AVERAGE_NODE_AREA")),
     ("averageScaleFactor", Key(OrganicProperties, "AVERAGE_SCALE_FACTOR")),
     ("maxIterations", Key(OrganicProperties, "MAX_ITERATIONS"))]
  const BoxTable: seq<CopyRow> :=
    [("numOfColumns", Key(BoxProperties, "COLUMNS"))]
  const ConcentricTable: seq<CopyRow> := []

  /** The algorithm an algorithm name selects, with the attributes it copies. */
  function AlgorithmFor(name: string, algorithm: PropertyMap): Option<(Algorithm, seq<CopyRow>)>
  {
    if name == "radial" then
      Some((RadialTree, RadialTable))
    else if name == "level" then
      Some((Tree, LevelTable))
    else if name == "compact" then
      Some((CompactTree, CompactTable))
    else if name == "node" then
      Some((NodeLinkTree, NodeTable))
    else if name == "balloon" then
      Some((Balloon, BalloonTable))
    else if name == "hierarchical" then
      Some((Hierarchical, HierarchicalTable))
    else if name == "circular" then
      Some((Circle, CircularTable))
    else if name == "Kamada" then
      Some((KamadaKawai, KamadaTable))
    else if name == "Fruchterman" then
      Some((FruchtermanReingold, FruchtermanTable))
    else if name == "spring" then
      Some((Spring, SpringTable))
    else if name == "organic" && "type" in algorithm then
      Some((FastOrganic, FastOrganicTable))
    else if name == "organic" then
      Some((Organic, OrganicTable))
    else if name == "box" then
      Some((Box, BoxTable))
    else if name == "concentric" then
      Some((Concentric, ConcentricTable))
    else None
  }

  /** Every copy table writes each property at most once. */
  lemma AlgorithmTablesDistinct(name: string, algorithm: PropertyMap)
    requires AlgorithmFor(name, algorithm).Some?
    ensures DistinctKeys(AlgorithmFor(name, algorithm).value.1)
  {
    if name == "radial" {
      RadialTableFacts();
    } else if name == "level" {
      LevelTableFacts();
    } else if name == "compact" {
      CompactTableFacts();
    } else if name == "node" {
      NodeTableFacts();
    } else if name == "balloon" {
      BalloonTableFacts();
    } else if name == "hierarchical" {
      HierarchicalTableFacts();
    } else if name == "circular" {
      CircularTableFacts();
    } else if name == "Kamada" {
      KamadaTableFacts();
    } else if name == "Fruchterman" {
      FruchtermanTableFacts();
    } else if name == "spring" {
      SpringTableFacts();
    } else if name == "organic" && "type" in algorithm {
      FastOrganicTableFacts();
    } else if name == "organic" {
      OrganicTableFacts();
    } else if name == "box" {
      BoxTableFacts();
    }
  }

  /** Every copy table writes only properties of the enum that belongs to its algorithm. */
  lemma AlgorithmTablesInFamily(name: string, algorithm: PropertyMap)
    requires AlgorithmFor(name, algorithm).Some?
    ensures InFamily(AlgorithmFor(name, algorithm).value.1, FamilyOf(AlgorithmFor(name, algorithm).value.0))
  {
    if name == "radial" {
      RadialTableFacts();
    } else if name == "level" {
      LevelTableFacts();
    } else if name == "compact" {
      CompactTableFacts();
    } else if name == "node" {
      NodeTableFacts();
    } else if name == "balloon" {
      BalloonTableFacts();
    } else if name == "hierarchical" {
      HierarchicalTableFacts();
    } else if name == "circular" {
      CircularTableFacts();
    } else if name == "Kamada" {
      KamadaTableFacts();
    } else if name == "Fruchterman" {
      FruchtermanTableFacts();
    } else if name == "spring" {
      SpringTableFacts();
    } else if name == "organic" && "type" in algorithm {
      FastOrganicTableFacts();
    } else if name == "organic" {
      OrganicTableFacts();
    } else if name == "box" {
      BoxTableFacts();
    }
  }

  /** Every row of a table writes a property of one enum. */
  predicate InFamily(table: seq<CopyRow>, f: Family)
  {
    forall i :: 0 <= i < |table| ==> table[i].1.family == f
  }

  // The two facts for each table, one lemma per table so that each table is checked
  // on its own; AlgorithmTablesDistinct and AlgorithmTablesInFamily state them for
  // every algorithm.

  lemma RadialTableFacts()
    ensures DistinctKeys(RadialTable) && InFamily(RadialTable, FamilyOf(RadialTree))
  {
  }

  lemma LevelTableFacts()
    ensures DistinctKeys(LevelTable) && InFamily(LevelTable, FamilyOf(Tree))
  {
  }

  lemma CompactTableFacts()
    ensures DistinctKeys(CompactTable) && InFamily(CompactTable, FamilyOf(CompactTree))
  {
  }

  lemma NodeTableFacts()
    ensures DistinctKeys(NodeTable) && InFamily(NodeTable, FamilyOf(NodeLinkTree))
  {
  }

  lemma BalloonTableFacts()
    ensures DistinctKeys(BalloonTable) && InFamily(BalloonTable, FamilyOf(Balloon))
  {
  }

  lemma HierarchicalTableFacts()
    ensures DistinctKeys(HierarchicalTable) && InFamily(HierarchicalTable, FamilyOf(Hierarchical))
  {
    HierarchicalKeysDistinct();
    HierarchicalInFamily();
  }

  lemma HierarchicalInFamily()
    ensures InFamily(HierarchicalTable, FamilyOf(Hierarchical))
  {
  }

  lemma HierarchicalKeysDistinct()
    ensures DistinctKeys(HierarchicalTable)
  {
  }

  lemma CircularTableFacts()
    ensures DistinctKeys(CircularTable) && InFamily(CircularTable, FamilyOf(Circle))
  {
  }

  lemma KamadaTableFacts()
    ensures DistinctKeys(KamadaTable) && InFamily(KamadaTable, FamilyOf(KamadaKawai))
  {
  }

  lemma FruchtermanTableFacts()
    ensures DistinctKeys(FruchtermanTable) && InFamily(FruchtermanTable, FamilyOf(FruchtermanReingold))
  {
  }

  lemma SpringTableFacts()
    ensures DistinctKeys(SpringTable) && InFamily(SpringTable, FamilyOf(Spring))
  {
  }

  lemma FastOrganicTableFacts()
    ensures DistinctKeys(FastOrganicTable) && InFamily(FastOrganicTable, FamilyOf(FastOrganic))
  {
  }

  lemma OrganicTableFacts()
    ensures DistinctKeys(OrganicTable) && InFamily(OrganicTable, FamilyOf(Organic))
  {
    OrganicKeysDistinct();
    OrganicInFamily();
  }

  lemma OrganicInFamily()
    ensures InFamily(OrganicTable, FamilyOf(Organic))
  {
  }

  lemma OrganicKeysDistinct()
    ensures DistinctKeys(OrganicTable)
  {
  }

  lemma BoxTableFacts()
    ensures DistinctKeys(BoxTable) && InFamily(BoxTable, FamilyOf(Box))
  {
  }

  /** The property enum that belongs to an algorithm (Concentric has none; Box is
      given BoxProperties). */
  function FamilyOf(a: Algorithm): Family
  {
    match a
    case RadialTree => RadialTreeProperties
    case Tree => TreeProperties
    case CompactTree => CompactTreeProperties
    case NodeLinkTree => NodeLinkTreeProperties
    case Balloon => BalloonProperties
    case Hierarchical => HierarchicalProperties
    case Circle => CircleProperties
    case KamadaKawai => KamadaKawaiProperties
    case FruchtermanReingold => FruchtermanReingoldProperties
    case Spring => SpringProperties
    case FastOrganic => FastOrganicProperties
    case Organic => OrganicProperties
    case _ => BoxProperties
  }

  /** The value of a string attribute cast with `(String)`: Python's None is null,
      anything but a string fails the cast. */
  function StringAttr(v: Value): Result<Option<string>, JavaFault>
  {
    match v
    case NoneV => Success(None)
    case StrV(s) => Success(Some(s))
    case _ => Failure(ClassCastException)
  }

  /** The code of a direction for NodeLinkTree: right, left, down, up are 0, 1, 2, 3. */
  function DirectionCode(direction: string): Option<int>
  {
    if direction == "right" then Some(0)
    else if direction == "left" then Some(1)
    else if direction == "down" then Some(2)
    else if direction == "up" then Some(3)
    else None
  }

  /** Setting one orientation property from a direction; other directions set nothing. */
  function Orient(settings: map<PropertyKey, PropertyValue>, key: PropertyKey, direction: string): map<PropertyKey, PropertyValue>
  {
    match DirectionCode(direction)
    case Some(code) => settings[key := IntProperty(code)]
    case None => settings
  }

  // javax.swing.SwingConstants
  const North: int := 1
  const East: int := 3
  const South: int := 5
  const West: int := 7

  /** The orientation chain of the hierarchical algorithm, as written: "right" sets the
      hierarchical orientation to EAST, while "left", "down" and "up" write WEST, SOUTH
      and NORTH into the NodeLinkTree orientation, which the hierarchical layout never reads. */
  function HierarchicalOrientation(settings: map<PropertyKey, PropertyValue>, direction: string): map<PropertyKey, PropertyValue>
  {
    if direction == "right" then settings[Key(HierarchicalProperties, "ORIENTATION") := IntProperty(East)]
    else if direction == "left" then settings[Key(NodeLinkTreeProperties, "ORIENTATION") := IntProperty(West)]
    else if direction == "down" then settings[Key(NodeLinkTreeProperties, "ORIENTATION") := IntProperty(South)]
    else if direction == "up" then settings[Key(NodeLinkTreeProperties, "ORIENTATION") := IntProperty(North)]
    else settings
  }

  /** The SwingConstants direction of a direction name. */
  function SwingDirection(direction: string): Option<int>
  {
    if direction == "right" then Some(East)
    else if direction == "left" then Some(West)
    else if direction == "down" then Some(South)
    else if direction == "up" then Some(North)
    else None
  }

  /** The orientation chain as evidently intended: every direction goes to the
      hierarchical orientation. */
  function HierarchicalOrientationIntended(settings: map<PropertyKey, PropertyValue>, direction: string): map<PropertyKey, PropertyValue>
  {
    match SwingDirection(direction)
    case Some(code) => settings[Key(HierarchicalProperties, "ORIENTATION") := IntProperty(code)]
    case None => settings
  }

  /** As written, "left" leaves the hierarchical orientation unset and writes a property
      of another algorithm instead. */
  lemma HierarchicalLeftMissesOrientation()
    ensures Key(HierarchicalProperties, "ORIENTATION") !in HierarchicalOrientation(map[], "left")
    ensures HierarchicalOrientation(map[], "left") == map[Key(NodeLinkTreeProperties, "ORIENTATION") := IntProperty(West)]
    ensures HierarchicalOrientationIntended(map[], "left") == map[Key(HierarchicalProperties, "ORIENTATION") := IntProperty(West)]
  {
    assert Key(HierarchicalProperties, "ORIENTATION") != Key(NodeLinkTreeProperties, "ORIENTATION");
  }

  /** The intended chain sets the hierarchical orientation to the SwingConstants value
      of each of the four directions and leaves every other property alone; the written
      chain agrees with it only on "right" and on unknown directions. */
  lemma HierarchicalOrientationIntendedSpec(settings: map<PropertyKey, PropertyValue>, direction: string)
    ensures var r := HierarchicalOrientationIntended(settings, direction);
      && (SwingDirection(direction).Some? ==>
            r == settings[Key(HierarchicalProperties, "ORIENTATION") := IntProperty(SwingDirection(direction).value)])
      && (SwingDirection(direction).None? ==> r == settings)
    ensures HierarchicalOrientation(settings, direction) == HierarchicalOrientationIntended(settings, direction)
              <== direction == "right" || SwingDirection(direction).None?
  {
  }

  /** The properties an algorithm name leads to, before the orientation attribute. */
  function AlgorithmProperties(algorithm: PropertyMap, choice: (Algorithm, seq<CopyRow>)): map<PropertyKey, PropertyValue>
  {
    CopyProperties(algorithm, choice.1)
  }

  /** The algorithm branch of selectLayout. A missing map, a missing or null name, and a
      null orientation are dereferenced (NullPointerException); a non-string orientation
      fails its cast; a name that matches nothing (a non-string one included) gives no
      algorithm and empty properties. Only NodeLinkTree and Hierarchical read an orientation. */
  function SelectAlgorithm(algorithm: Option<PropertyMap>): (r: Result<Selection, JavaFault>)
    ensures r.Success? ==> r.value.properties.Some? && r.value.properties.value.defaultsFor.None?
  {
    if algorithm.None? then Failure(NullPointerException)
    else
      var a := algorithm.value;
      if "name" !in a || a["name"].NoneV? then Failure(NullPointerException)
      else if !a["name"].StrV? || AlgorithmFor(a["name"].s, a).None? then
        Success(Selection(None, Some(Properties(None, map[]))))
      else
        var choice := AlgorithmFor(a["name"].s, a).value;
        var copied := AlgorithmProperties(a, choice);
        if (choice.0 == NodeLinkTree || choice.0 == Hierarchical) && "orientation" in a then
          match StringAttr(a["orientation"])
          case Failure(f) => Failure(f)
          case Success(None) => Failure(NullPointerException)
          case Success(Some(d)) =>
            var oriented :=
              if choice.0 == NodeLinkTree then Orient(copied, Key(NodeLinkTreeProperties, "ORIENTATION"), d)
              else HierarchicalOrientation(copied, d);
            Success(Selection(Some(choice.0), Some(Properties(None, oriented))))
        else Success(Selection(Some(choice.0), Some(Properties(None, copied))))
  }

  /** For a recognised name without an orientation attribute, the selection is that
      name's algorithm, and a property is set exactly when its attribute is present,
      to that attribute's value. */
  lemma SelectAlgorithmCopies(a: PropertyMap)
    requires "name" in a && a["name"].StrV? && AlgorithmFor(a["name"].s, a).Some?
    requires "orientation" !in a
    ensures var choice := AlgorithmFor(a["name"].s, a).value;
      var r := SelectAlgorithm(Some(a));
      && r.Success? && r.value.algorithm == Some(choice.0)
      && r.value.properties.value.settings.Keys == (set i | 0 <= i < |choice.1| && choice.1[i].0 in a :: choice.1[i].1)
      && forall i :: 0 <= i < |choice.1| && choice.1[i].0 in a ==>
           r.value.properties.value.settings[choice.1[i].1] == Copied(a[choice.1[i].0])
  {
    AlgorithmTablesDistinct(a["name"].s, a);
    CopyPropertiesSpec(a, AlgorithmFor(a["name"].s, a).value.1);
  }

  /** "organic" selects the fast organic layout exactly when a `type` attribute is present. */
  lemma OrganicVariants(a: PropertyMap)
    requires "name" in a && a["name"] == StrV("organic") && "orientation" !in a
    ensures SelectAlgorithm(Some(a)).Success?
    ensures SelectAlgorithm(Some(a)).value.algorithm == Some(if "type" in a then FastOrganic else Organic)
  {
  }

  /** The style branch of selectLayout; an unknown style selects nothing (null). */
  function SelectStyle(style: string, facts: GraphFacts): (r: Option<Selection>)
    ensures r.Some? ==> r.value.algorithm.Some?
    ensures r.Some? ==> (r.value.properties.None? <==> r.value.algorithm == Some(Automatic))
    ensures r.Some? && r.value.properties.Some? ==> r.value.properties.value == Properties(r.value.algorithm, map[])
  {
    if style == "automatic" then Some(Selection(Some(Automatic), None))
    else if style == "circular" then Some(WithDefaults(Circle))
    else if style == "tree" then Some(WithDefaults(CompactTree))
    else if style == "hierarchical" then Some(WithDefaults(Hierarchical))
    else if style == "symmetric" then Some(WithDefaults(Concentric))
    else if style == "general" then Some(WithDefaults(if Big(facts) then Isom else KamadaKawai))
    else None
  }

  /** An algorithm with the properties DefaultGraphLayoutProperties gives it. */
  function WithDefaults(a: Algorithm): Selection
  {
    Selection(Some(a), Some(Properties(Some(a), map[])))
  }

  /** The style table: six styles are recognised, automatic carries no properties, and
      the size of the graph matters only to the general style. */
  lemma StyleMapping(style: string, f: GraphFacts, g: GraphFacts)
    ensures SelectStyle(style, f).Some? <==>
              style in ["automatic", "circular", "tree", "hierarchical", "symmetric", "general"]
    ensures SelectStyle("automatic", f) == Some(Selection(Some(Automatic), None))
    ensures SelectStyle("general", f) == Some(WithDefaults(if Big(f) then Isom else KamadaKawai))
    ensures style != "general" ==> SelectStyle(style, f) == SelectStyle(style, g)
  {
  }

  /** The last index of each recognised criterion in the criteria list, -1 when absent. */
  datatype CriteriaIndices = CriteriaIndices(
    planar: int, crossings: int, angle: int, bands: int, flow: int,
    symmetric: int, distribute: int, optimize: int, similar: int)

  const NoCriteria := CriteriaIndices(-1, -1, -1, -1, -1, -1, -1, -1, -1)

  const CriterionNames: seq<string> :=
    ["planar", "crossings", "angle", "bands", "flow", "symmetric", "distribute", "optimize", "similar"]

  /** Every index lies in -1 .. n-1. */
  predicate InRange(ix: CriteriaIndices, n: int)
  {
    && -1 <= ix.planar < n && -1 <= ix.crossings < n && -1 <= ix.angle < n
    && -1 <= ix.bands < n && -1 <= ix.flow < n && -1 <= ix.symmetric < n
    && -1 <= ix.distribute < n && -1 <= ix.optimize < n && -1 <= ix.similar < n
  }

  /** The index recorded for a criterion name. */
  function IndexOf(ix: CriteriaIndices, name: string): int
  {
    if name == "planar" then ix.planar
    else if name == "crossings" then ix.crossings
    else if name == "angle" then ix.angle
    else if name == "bands" then ix.bands
    else if name == "flow" then ix.flow
    else if name == "symmetric" then ix.symmetric
    else if name == "distribute" then ix.distribute
    else if name == "optimize" then ix.optimize
    else if name == "similar" then ix.similar
    else -1
  }

  /** One case of the switch on a criterion's name: a recognised name records i. */
  function Record(ix: CriteriaIndices, name: string, i: int): CriteriaIndices
  {
    if name == "planar" then ix.(planar := i)
    else if name == "crossings" then ix.(crossings := i)
    else if name == "angle" then ix.(angle := i)
    else if name == "bands" then ix.(bands := i)
    else if name == "flow" then ix.(flow := i)
    else if name == "symmetric" then ix.(symmetric := i)
    else if name == "distribute" then ix.(distribute := i)
    else if name == "optimize" then ix.(optimize := i)
    else if name == "similar" then ix.(similar := i)
    else ix
  }

  /** Recording a name moves that name's index and no other. */
  lemma RecordSpec(ix: CriteriaIndices, name: string, i: int, other: string)
    ensures IndexOf(Record(ix, name, i), other) ==
              if other == name && other in CriterionNames then i else IndexOf(ix, other)
  {
  }

  /** `(String) criterion.get("criterion")` switched on: a missing or null name is
      dereferenced by the switch, a non-string one fails its cast. */
  function CriterionName(c: PropertyMap): Result<string, JavaFault>
  {
    if "criterion" !in c then Failure(NullPointerException)
    else match StringAttr(c["criterion"])
      case Failure(f) => Failure(f)
      case Success(None) => Failure(NullPointerException)
      case Success(Some(name)) => Success(name)
  }

  /** The loop over the criteria maps, one map at a time. */
  function ScanSpec(maps: seq<PropertyMap>): (r: Result<CriteriaIndices, JavaFault>)
    ensures r.Success? ==> InRange(r.value, |maps|)
  {
    if maps == [] then Success(NoCriteria)
    else
      match ScanSpec(maps[..|maps| - 1])
      case Failure(f) => Failure(f)
      case Success(ix) =>
        match CriterionName(maps[|maps| - 1])
        case Failure(f) => Failure(f)
        case Success(name) => Success(Record(ix, name, |maps| - 1))
  }

  /** The criteria loop of selectLayout, over nine index variables. */
  method ScanCriteria(maps: seq<PropertyMap>) returns (r: Result<CriteriaIndices, JavaFault>)
    ensures r == ScanSpec(maps)
  {
    var planar, symmetric, edgeCrossings, minimumAngles, minimumBands := -1, -1, -1, -1, -1;
    var uniformFlow, nodeDistribution, edgeLengths, edgeVariation := -1, -1, -1, -1;
    for i := 0 to |maps|
      invariant ScanSpec(maps[..i]) == Success(CriteriaIndices(planar, edgeCrossings, minimumAngles,
                  minimumBands, uniformFlow, symmetric, nodeDistribution, edgeLengths, edgeVariation))
    {
      assert maps[..i + 1][..i] == maps[..i];
      var name := CriterionName(maps[i]);
      if name.Failure? {
        ScanFailurePersists(maps, i + 1);
        return Failure(name.error);
      }
      match name.value {
        case "planar" => planar := i;
        case "crossings" => edgeCrossings := i;
        case "angle" => minimumAngles := i;
        case "bands" => minimumBands := i;
        case "flow" => uniformFlow := i;
        case "symmetric" => symmetric := i;
        case "distribute" => nodeDistribution := i;
        case "optimize" => edgeLengths := i;
        case "similar" => edgeVariation := i;
        case _ =>
      }
    }
    assert maps[..|maps|] == maps;
    r := Success(CriteriaIndices(planar, edgeCrossings, minimumAngles, minimumBands, uniformFlow,
                                 symmetric, nodeDistribution, edgeLengths, edgeVariation));
  }

  /** Once a criterion's name faults, the loop has faulted for every longer prefix. */
  lemma {:induction false} ScanFailurePersists(maps: seq<PropertyMap>, n: nat)
    requires n <= |maps| && ScanSpec(maps[..n]).Failure?
    ensures ScanSpec(maps).Failure? && ScanSpec(maps).error == ScanSpec(maps[..n]).error
  {
    if n < |maps| {
      assert maps[..|maps| - 1][..n] == maps[..n];
      ScanFailurePersists(maps[..|maps| - 1], n);
    } else {
      assert maps[..n] == maps;
    }
  }

  /** Each recognised criterion records the index of its last occurrence, or -1 when it
      does not occur. */
  lemma {:induction false} ScanRecordsLastOccurrence(maps: seq<PropertyMap>, name: string)
    requires ScanSpec(maps).Success? && name in CriterionNames
    ensures var ix := IndexOf(ScanSpec(maps).value, name);
      && (ix == -1 <==> forall i :: 0 <= i < |maps| ==> CriterionName(maps[i]) != Success(name))
      && (ix != -1 ==> CriterionName(maps[ix]) == Success(name)
                       && forall j :: ix < j < |maps| ==> CriterionName(maps[j]) != Success(name))
  {
    if maps != [] {
      var pre := maps[..|maps| - 1];
      ScanStep(maps);
      ScanRecordsLastOccurrence(pre, name);
      var last := CriterionName(maps[|maps| - 1]);
      RecordSpec(ScanSpec(pre).value, last.value, |maps| - 1, name);
      forall i | 0 <= i < |pre| ensures pre[i] == maps[i] {
      }
    }
  }

  /** A successful scan is the scan of all maps but the last, with the last map's name
      recorded. */
  lemma ScanStep(maps: seq<PropertyMap>)
    requires maps != [] && ScanSpec(maps).Success?
    ensures ScanSpec(maps[..|maps| - 1]).Success? && CriterionName(maps[|maps| - 1]).Success?
    ensures ScanSpec(maps).value ==
              Record(ScanSpec(maps[..|maps| - 1]).value, CriterionName(maps[|maps| - 1]).value, |maps| - 1)
  {
  }

  /** The loop faults exactly when some criterion's name is missing, null or not a string. */
  lemma {:induction false} ScanFaultsOnBadName(maps: seq<PropertyMap>)
    ensures ScanSpec(maps).Failure? <==> exists i :: 0 <= i < |maps| && CriterionName(maps[i]).Failure?
  {
    if maps != [] {
      var pre := maps[..|maps| - 1];
      ScanFaultsOnBadName(pre);
      assert forall i :: 0 <= i < |pre| ==> pre[i] == maps[i];
      if CriterionName(maps[|maps| - 1]).Failure? {
        assert CriterionName(maps[|maps| - 1]).Failure?;
      }
    }
  }

  /** `(String) criterion.get("direction")`: absent or null means no direction. */
  function DirectionOf(c: PropertyMap): Result<Option<string>, JavaFault>
  {
    if "direction" !in c then Success(None) else StringAttr(c["direction"])
  }

  /** The criteria branch of selectLayout, given the recorded indices. */
  function DecideCriteria(maps: seq<PropertyMap>, ix: CriteriaIndices, facts: GraphFacts): (r: Result<Selection, JavaFault>)
    requires InRange(ix, |maps|)
    ensures r.Success? ==> r.value.algorithm.Some? && r.value.properties.Some?
  {
    if (ix.planar != -1 || ix.crossings != -1) && |maps| == 1 then
      var algorithm :=
        if facts.tree then CompactTree
        else if facts.convexDrawable then Convex
        else if !Big(facts) then Organic
        else Isom;
      Success(Selection(Some(algorithm), Some(Properties(None, map[]))))
    else if facts.tree && (ix.distribute == -1 || ix.flow != -1) then
      if (ix.flow != -1 || ix.symmetric != -1) && ix.flow > ix.symmetric then
        match DirectionOf(maps[ix.flow])
        case Failure(f) => Failure(f)
        case Success(None) => Success(WithDefaults(NodeLinkTree))
        case Success(Some(d)) =>
          Success(Selection(Some(NodeLinkTree), Some(Properties(Some(NodeLinkTree),
            Orient(map[], Key(NodeLinkTreeProperties, "ORIENTATION"), d)))))
      else Success(WithDefaults(NodeLinkTree))
    else if ix.symmetric != -1 && |maps| == 1 then
      Success(Selection(Some(Concentric), Some(Properties(None, map[]))))
    else if ix.flow > ix.distribute && ix.flow > ix.optimize && ix.flow > ix.similar then
      match DirectionOf(maps[ix.flow])
      case Failure(f) => Failure(f)
      case Success(None) => Success(WithDefaults(Hierarchical))
      case Success(Some(d)) =>
        Success(Selection(Some(Hierarchical), Some(Properties(Some(Hierarchical),
          Orient(map[], Key(HierarchicalProperties, "ORIENTATION"), d)))))
    else
      Success(Selection(Some(Organic), Some(Properties(None, OrganicFlags(ix)))))
  }

  /** The organic fallback: a flag per requested optimisation, and always fine tuning. */
  function OrganicFlags(ix: CriteriaIndices): map<PropertyKey, PropertyValue>
  {
    var m0: map<PropertyKey, PropertyValue> := map[];
    var m1 := if ix.crossings != -1 then m0[Key(OrganicProperties, "IS_OPTIMIZE_EDGE_CROSSING") := BoolProperty(true)] else m0;
    var m2 := if ix.optimize != -1 then m1[Key(OrganicProperties, "IS_OPTIMIZE_EDGE_DISTANCE") := BoolProperty(true)] else m1;
    var m3 := if ix.distribute != -1 then m2[Key(OrganicProperties, "NODE_DISTRIBUTION_FACTOR") := BoolProperty(true)] else m2;
    m3[Key(OrganicProperties, "IS_FINE_TUNING") := BoolProperty(true)]
  }

  /** The criteria branch of selectLayout: a null criteria list is dereferenced. */
  function SelectCriteria(criteria: Option<seq<PropertyMap>>, facts: GraphFacts): Result<Selection, JavaFault>
  {
    if criteria.None? then Failure(NullPointerException)
    else
      var ix :- ScanSpec(criteria.value);
      DecideCriteria(criteria.value, ix, facts)
  }

  /** selectLayout: a null type is dereferenced; an unknown type or style returns null. */
  function SelectLayout(d: MLayoutGraph, facts: GraphFacts): Result<Option<Selection>, JavaFault>
  {
    if d.layoutType.None? then Failure(NullPointerException)
    else if d.layoutType.value == "algorithm" then
      var selection :- SelectAlgorithm(d.algorithm);
      Success(Some(selection))
    else if d.layoutType.value == "style" then Success(SelectStyle(d.style, facts))
    else if d.layoutType.value == "criteria" then
      var selection :- SelectCriteria(d.aestheticCriteria, facts);
      Success(Some(selection))
    else Success(None)
  }

  /** An unknown directive type selects nothing; a style or criteria directive that
      selects something always names an algorithm. */
  lemma SelectLayoutOutcomes(d: MLayoutGraph, facts: GraphFacts)
    ensures d.layoutType.Some? && d.layoutType.value !in ["algorithm", "style", "criteria"] ==>
              SelectLayout(d, facts) == Success(None)
    ensures d.layoutType == Some("criteria") && SelectLayout(d, facts).Success? ==>
              SelectLayout(d, facts).value.Some? && SelectLayout(d, facts).value.value.algorithm.Some?
    ensures d.layoutType == Some("style") ==> SelectLayout(d, facts) == Success(SelectStyle(d.style, facts))
  {
  }

  /** A planarity or crossings criterion on its own: a tree gets the compact tree, any
      other graph a convex drawing when ConvexDrawing succeeds, and otherwise the organic
      layout, or ISOM for a big graph. */
  lemma PlanarCriterionAlone(c: PropertyMap, facts: GraphFacts)
    requires CriterionName(c) == Success("planar") || CriterionName(c) == Success("crossings")
    ensures SelectCriteria(Some([c]), facts).Success?
    ensures SelectCriteria(Some([c]), facts).value.algorithm ==
              Some(if facts.tree then CompactTree else if facts.convexDrawable then Convex
                   else if Big(facts) then Isom else Organic)
  {
    assert [c][..0] == [];
    var ix := Record(NoCriteria, CriterionName(c).value, 0);
    assert ScanSpec([c]) == Success(ix);
    assert ix.planar == 0 || ix.crossings == 0;
  }

  /** On a tree, criteria without node distribution, or with flow, give the node-link
      tree; a later flow's direction sets its orientation. */
  lemma TreeCriteria(maps: seq<PropertyMap>, facts: GraphFacts)
    requires ScanSpec(maps).Success? && facts.tree
    requires var ix := ScanSpec(maps).value;
      !((ix.planar != -1 || ix.crossings != -1) && |maps| == 1) && (ix.distribute == -1 || ix.flow != -1)
    ensures SelectCriteria(Some(maps), facts).Success? ==>
              SelectCriteria(Some(maps), facts).value.algorithm == Some(NodeLinkTree)
    ensures var ix := ScanSpec(maps).value;
      ix.flow > ix.symmetric && DirectionOf(maps[ix.flow]) == Success(Some("left")) ==>
        SelectCriteria(Some(maps), facts) == Success(Selection(Some(NodeLinkTree), Some(Properties(Some(NodeLinkTree),
          map[Key(NodeLinkTreeProperties, "ORIENTATION") := IntProperty(1)]))))
  {
  }

  /** The organic fallback always fine-tunes, and sets each optimisation flag exactly
      when its criterion was requested. */
  lemma OrganicFlagsSpec(ix: CriteriaIndices)
    ensures OrganicFlags(ix)[Key(OrganicProperties, "IS_FINE_TUNING")] == BoolProperty(true)
    ensures Key(OrganicProperties, "IS_OPTIMIZE_EDGE_CROSSING") in OrganicFlags(ix) <==> ix.crossings != -1
    ensures Key(OrganicProperties, "IS_OPTIMIZE_EDGE_DISTANCE") in OrganicFlags(ix) <==> ix.optimize != -1
    ensures Key(OrganicProperties, "NODE_DISTRIBUTION_FACTOR") in OrganicFlags(ix) <==> ix.distribute != -1
    ensures OrganicFlags(ix).Keys <= {Key(OrganicProperties, "IS_OPTIMIZE_EDGE_CROSSING"),
                                      Key(OrganicProperties, "IS_OPTIMIZE_EDGE_DISTANCE"),
                                      Key(OrganicProperties, "NODE_DISTRIBUTION_FACTOR"),
                                      Key(OrganicProperties, "IS_FINE_TUNING")}
  {
  }

  // ---------------------------------------------------------------------------
  // layout: from directives to the vertex sets that are drawn

  /** One drawing to make: its vertices, its directive and the selected algorithm. */
  datatype Step = Step(vertices: seq<Vertex>, directive: MLayoutGraph, selection: Selection)

  /** What `layout` draws: the whole graph under one directive, or one drawing per
      subgraph, placed side by side in this order. */
  datatype Plan = WholeGraph(step: Step) | Subgraphs(steps: seq<Step>)

  /** executeOne up to the drawing itself: the pair selectLayout returns is dereferenced,
      so a null one is a NullPointerException. */
  function SelectionFor(vs: seq<Vertex>, d: MLayoutGraph, facts: seq<Vertex> -> GraphFacts): Result<Selection, JavaFault>
  {
    var selected :- SelectLayout(d, facts(vs));
    if selected.None? then Failure(NullPointerException) else Success(selected.value)
  }

  /** The vertex an index token stands for: "" is vertex 0, anything else goes through
      Integer.parseInt and List.get. */
  function TokenVertex(token: string, vertices: seq<Vertex>): Result<Vertex, JavaFault>
  {
    if token == "" then
      if |vertices| == 0 then Failure(IndexOutOfBoundsException) else Success(vertices[0])
    else
      match ParseInt(token)
      case None => Failure(NumberFormatException)
      case Some(i) => if 0 <= i < |vertices| then Success(vertices[i]) else Failure(IndexOutOfBoundsException)
  }

  /** The vertices of an index-addressed target, token by token; the first bad token
      raises its exception. */
  function IndexedVertices(tokens: seq<string>, vertices: seq<Vertex>): (r: Result<seq<Vertex>, JavaFault>)
    ensures r.Success? ==> |r.value| == |tokens|
    ensures r.Success? ==> forall k :: 0 <= k < |tokens| ==> TokenVertex(tokens[k], vertices) == Success(r.value[k])
  {
    if tokens == [] then Success([])
    else
      var pre :- IndexedVertices(tokens[..|tokens| - 1], vertices);
      var v :- TokenVertex(tokens[|tokens| - 1], vertices);
      Success(pre + [v])
  }

  /** When every token names a vertex, the target selects those vertices (in token
      order, by the postcondition of IndexedVertices). */
  lemma {:induction false} IndexedVerticesSucceed(tokens: seq<string>, vertices: seq<Vertex>)
    requires forall k :: 0 <= k < |tokens| ==> TokenVertex(tokens[k], vertices).Success?
    ensures IndexedVertices(tokens, vertices).Success?
  {
    if tokens != [] {
      IndexedVerticesSucceed(tokens[..|tokens| - 1], vertices);
    }
  }

  lemma {:induction false} IndexedFailurePersists(tokens: seq<string>, vertices: seq<Vertex>, n: nat)
    requires n <= |tokens| && IndexedVertices(tokens[..n], vertices).Failure?
    ensures IndexedVertices(tokens, vertices) == Failure(IndexedVertices(tokens[..n], vertices).error)
  {
    if n < |tokens| {
      assert tokens[..|tokens| - 1][..n] == tokens[..n];
      IndexedFailurePersists(tokens[..|tokens| - 1], vertices, n);
    } else {
      assert tokens[..n] == tokens;
    }
  }

  /** The index loop of `layout`, which fills `subgraphVertices`. */
  method SelectByIndex(tokens: seq<string>, vertices: seq<Vertex>) returns (r: Result<seq<Vertex>, JavaFault>)
    ensures r == IndexedVertices(tokens, vertices)
  {
    var subgraphVertices: seq<Vertex> := [];
    for i := 0 to |tokens|
      invariant IndexedVertices(tokens[..i], vertices) == Success(subgraphVertices)
    {
      assert tokens[..i + 1][..i] == tokens[..i];
      var v := TokenVertex(tokens[i], vertices);
      if v.Failure? {
        IndexedFailurePersists(tokens, vertices, i + 1);
        return Failure(v.error);
      }
      subgraphVertices := subgraphVertices + [v.value];
    }
    assert tokens[..|tokens|] == tokens;
    r := Success(subgraphVertices);
  }

  /** `String.equals` with a vertex argument: a String equals only Strings. */
  predicate StringEqualsVertex(s: string, v: Vertex)
  {
    false
  }

  /** `List<V>.contains` given a String, as the content branch calls it. */
  predicate ListContainsString(list: seq<Vertex>, s: string)
  {
    exists i :: 0 <= i < |list| && StringEqualsVertex(s, list[i])
  }

  /** The content branch as written: it keeps each vertex whose content the list being
      filled already contains, instead of looking the content up among the tokens. */
  function ContentScanAsWritten(selected: seq<Vertex>, rest: seq<Vertex>): seq<Vertex>
    decreases |rest|
  {
    if rest == [] then selected
    else
      var v := rest[0];
      ContentScanAsWritten(if ListContainsString(selected, v.content) then selected + [v] else selected, rest[1..])
  }

  /** The content loop of `layout` as written. */
  method ContentScan(vertices: seq<Vertex>) returns (subgraphVertices: seq<Vertex>)
    ensures subgraphVertices == ContentScanAsWritten([], vertices)
  {
    subgraphVertices := [];
    for i := 0 to |vertices|
      invariant ContentScanAsWritten(subgraphVertices, vertices[i..]) == ContentScanAsWritten([], vertices)
    {
      assert vertices[i..][1..] == vertices[i + 1..];
      if ListContainsString(subgraphVertices, vertices[i].content) {
        subgraphVertices := subgraphVertices + [vertices[i]];
      }
    }
  }

  /** The content branch selects no vertex, whatever the target and the vertices. */
  lemma {:induction false} ContentScanSelectsNothing(vertices: seq<Vertex>)
    ensures ContentScanAsWritten([], vertices) == []
  {
    if vertices != [] {
      assert !ListContainsString([], vertices[0].content);
      ContentScanSelectsNothing(vertices[1..]);
    }
  }

  /** The content branch as evidently intended: the vertices whose content is one of
      the tokens, in vertex order. */
  function ContentVertices(tokens: seq<string>, vertices: seq<Vertex>): seq<Vertex>
  {
    if vertices == [] then []
    else
      var v := vertices[|vertices| - 1];
      ContentVertices(tokens, vertices[..|vertices| - 1]) + (if v.content in tokens then [v] else [])
  }

  /** The intended branch keeps exactly the vertices that carry one of the tokens. */
  lemma {:induction false} ContentVerticesSpec(tokens: seq<string>, vertices: seq<Vertex>)
    ensures forall v :: v in ContentVertices(tokens, vertices) <==> v in vertices && v.content in tokens
  {
    if vertices != [] {
      var pre := vertices[..|vertices| - 1];
      ContentVerticesSpec(tokens, pre);
      assert vertices == pre + [vertices[|vertices| - 1]];
    }
  }

  /** A vertex labelled "a" named by the target "a": the written branch draws nothing,
      the intended one draws that vertex. */
  lemma ContentTargetExample()
    ensures ContentScanAsWritten([], [Vertex(0, "a")]) == []
    ensures ContentVertices(JavaSplit("a"), [Vertex(0, "a")]) == [Vertex(0, "a")]
  {
    ContentScanSelectsNothing([Vertex(0, "a")]);
    assert CommaFree("a");
    assert [Vertex(0, "a")][..0] == [];
  }

  /** The vertices a subgraph's target selects. */
  function TargetVertices(d: MLayoutGraph, target: string, vertices: seq<Vertex>): Result<seq<Vertex>, JavaFault>
  {
    if !d.graphContent then IndexedVertices(JavaSplit(target), vertices)
    else Success(ContentScanAsWritten([], vertices))
  }

  /** The state of the subgraph loop: the drawings made so far, every vertex claimed by
      them (`allSubgraphVertices`), and the deferred "others" directive. */
  datatype PartsState = PartsState(steps: seq<Step>, claimed: seq<Vertex>, others: Option<MLayoutGraph>)

  /** One iteration of the subgraph loop. A null target is dereferenced; "others" is
      deferred (a later one replaces an earlier one). */
  function PartStep(st: PartsState, d: MLayoutGraph, vertices: seq<Vertex>, facts: seq<Vertex> -> GraphFacts): Result<PartsState, JavaFault>
  {
    if d.graph.None? then Failure(NullPointerException)
    else if d.graph.value == "others" then Success(st.(others := Some(d)))
    else
      var selected :- TargetVertices(d, d.graph.value, vertices);
      var selection :- SelectionFor(selected, d, facts);
      Success(PartsState(st.steps + [Step(selected, d, selection)], st.claimed + selected, st.others))
  }

  function PartsSpec(ds: seq<MLayoutGraph>, vertices: seq<Vertex>, facts: seq<Vertex> -> GraphFacts): Result<PartsState, JavaFault>
  {
    if ds == [] then Success(PartsState([], [], None))
    else
      var st :- PartsSpec(ds[..|ds| - 1], vertices, facts);
      PartStep(st, ds[|ds| - 1], vertices, facts)
  }

  /** The vertices no explicit subgraph claimed, in vertex order. */
  function Unclaimed(vertices: seq<Vertex>, claimed: seq<Vertex>): seq<Vertex>
  {
    if vertices == [] then []
    else
      var v := vertices[|vertices| - 1];
      Unclaimed(vertices[..|vertices| - 1], claimed) + (if v in claimed then [] else [v])
  }

  /** `layout`, as the plan of drawings it makes. */
  function LayoutSpec(exec: Interpreter.Executed, vertices: seq<Vertex>, facts: seq<Vertex> -> GraphFacts): Result<Plan, JavaFault>
  {
    match exec
    case Single(None) => Failure(NullPointerException)
    case Single(Some(d)) =>
      if d.exception != "" then Failure(DSLException(d.exception))
      else
        var selection :- SelectionFor(vertices, d, facts);
        Success(WholeGraph(Step(vertices, d, selection)))
    case Several(s) =>
      var st :- PartsSpec(s.subgraphs, vertices, facts);
      if st.others.None? then Success(Subgraphs(st.steps))
      else
        var rest := Unclaimed(vertices, st.claimed);
        var selection :- SelectionFor(rest, st.others.value, facts);
        Success(Subgraphs(st.steps + [Step(rest, st.others.value, selection)]))
  }

  lemma {:induction false} PartsFailurePersists(ds: seq<MLayoutGraph>, vertices: seq<Vertex>,
                                                facts: seq<Vertex> -> GraphFacts, n: nat)
    requires n <= |ds| && PartsSpec(ds[..n], vertices, facts).Failure?
    ensures PartsSpec(ds, vertices, facts) == Failure(PartsSpec(ds[..n], vertices, facts).error)
  {
    if n < |ds| {
      assert ds[..|ds| - 1][..n] == ds[..n];
      PartsFailurePersists(ds[..|ds| - 1], vertices, facts, n);
    } else {
      assert ds[..n] == ds;
    }
  }

  /** The subgraph loop of `layout`. */
  method RunParts(ds: seq<MLayoutGraph>, vertices: seq<Vertex>, facts: seq<Vertex> -> GraphFacts)
    returns (r: Result<PartsState, JavaFault>)
    ensures r == PartsSpec(ds, vertices, facts)
  {
    var steps: seq<Step> := [];
    var allSubgraphVertices: seq<Vertex> := [];
    var others: Option<MLayoutGraph> := None;
    for i := 0 to |ds|
      invariant PartsSpec(ds[..i], vertices, facts) == Success(PartsState(steps, allSubgraphVertices, others))
    {
      assert ds[..i + 1][..i] == ds[..i];
      var layoutGraph := ds[i];
      if layoutGraph.graph.None? {
        PartsFailurePersists(ds, vertices, facts, i + 1);
        return Failure(NullPointerException);
      }
      var subgraph := layoutGraph.graph.value;
      if subgraph == "others" {
        others := Some(layoutGraph);
        continue;
      }
      var subgraphVertices: seq<Vertex>;
      if !layoutGraph.graphContent {
        var selected := SelectByIndex(JavaSplit(subgraph), vertices);
        if selected.Failure? {
          PartsFailurePersists(ds, vertices, facts, i + 1);
          return Failure(selected.error);
        }
        subgraphVertices := selected.value;
      } else {
        subgraphVertices := ContentScan(vertices);
      }
      allSubgraphVertices := allSubgraphVertices + subgraphVertices;
      var selection := SelectionFor(subgraphVertices, layoutGraph, facts);
      if selection.Failure? {
        PartsFailurePersists(ds, vertices, facts, i + 1);
        return Failure(selection.error);
      }
      steps := steps + [Step(subgraphVertices, layoutGraph, selection.value)];
    }
    assert ds[..|ds|] == ds;
    r := Success(PartsState(steps, allSubgraphVertices, others));
  }

  /** The loop that collects the vertices left for "others". */
  method OtherVertices(vertices: seq<Vertex>, allSubgraphVertices: seq<Vertex>) returns (otherVertices: seq<Vertex>)
    ensures otherVertices == Unclaimed(vertices, allSubgraphVertices)
  {
    otherVertices := [];
    for i := 0 to |vertices|
      invariant otherVertices == Unclaimed(vertices[..i], allSubgraphVertices)
    {
      assert vertices[..i + 1][..i] == vertices[..i];
      if vertices[i] !in allSubgraphVertices {
        otherVertices := otherVertices + [vertices[i]];
      }
    }
    assert vertices[..|vertices|] == vertices;
  }

  /** `layout`: the plan of drawings for the interpreter's result. */
  method Layout(exec: Interpreter.Executed, vertices: seq<Vertex>, facts: seq<Vertex> -> GraphFacts)
    returns (r: Result<Plan, JavaFault>)
    ensures r == LayoutSpec(exec, vertices, facts)
  {
    if exec.Single? {
      if exec.directive.None? {
        return Failure(NullPointerException);
      }
      var layoutGraph := exec.directive.value;
      if layoutGraph.exception != "" {
        return Failure(DSLException(layoutGraph.exception));
      }
      var selection := SelectionFor(vertices, layoutGraph, facts);
      if selection.Failure? {
        return Failure(selection.error);
      }
      return Success(WholeGraph(Step(vertices, layoutGraph, selection.value)));
    }
    var parts := RunParts(exec.subgraphs.subgraphs, vertices, facts);
    if parts.Failure? {
      return Failure(parts.error);
    }
    var st := parts.value;
    if st.others.None? {
      return Success(Subgraphs(st.steps));
    }
    var otherVertices := OtherVertices(vertices, st.claimed);
    var selection := SelectionFor(otherVertices, st.others.value, facts);
    if selection.Failure? {
      return Failure(selection.error);
    }
    r := Success(Subgraphs(st.steps + [Step(otherVertices, st.others.value, selection.value)]));
  }

  /** A vertex is left for "others" exactly when it is not claimed. */
  lemma {:induction false} UnclaimedSpec(vertices: seq<Vertex>, claimed: seq<Vertex>)
    ensures forall v :: v in Unclaimed(vertices, claimed) <==> v in vertices && v !in claimed
  {
    if vertices != [] {
      var pre := vertices[..|vertices| - 1];
      UnclaimedSpec(pre, claimed);
      assert vertices == pre + [vertices[|vertices| - 1]];
    }
  }

  /** The claimed vertices are those of the drawings made so far; no drawing is for
      "others", and the deferred directive is the last "others" one. */
  lemma PartsSpecFacts(ds: seq<MLayoutGraph>, vertices: seq<Vertex>, facts: seq<Vertex> -> GraphFacts)
    requires PartsSpec(ds, vertices, facts).Success?
    ensures var st := PartsSpec(ds, vertices, facts).value;
      && (forall v :: v in st.claimed <==> exists k :: 0 <= k < |st.steps| && v in st.steps[k].vertices)
      && (forall k :: 0 <= k < |st.steps| ==> st.steps[k].directive.graph.Some? && st.steps[k].directive.graph.value != "others")
      && (st.others.Some? ==> st.others.value in ds && st.others.value.graph == Some("others"))
      && (st.others.None? <==> NoOthers(ds))
  {
    PartsClaimed(ds, vertices, facts);
    PartsDirectives(ds, vertices, facts);
  }

  /** The claimed vertices are exactly those of the drawings made so far. */
  lemma {:induction false} PartsClaimed(ds: seq<MLayoutGraph>, vertices: seq<Vertex>, facts: seq<Vertex> -> GraphFacts)
    requires PartsSpec(ds, vertices, facts).Success?
    ensures var st := PartsSpec(ds, vertices, facts).value;
      forall v :: v in st.claimed <==> exists k :: 0 <= k < |st.steps| && v in st.steps[k].vertices
  {
    if ds != [] {
      var pre := ds[..|ds| - 1];
      PartsClaimed(pre, vertices, facts);
      var st0 := PartsSpec(pre, vertices, facts).value;
      var st := PartsSpec(ds, vertices, facts).value;
      if ds[|ds| - 1].graph.value != "others" {
        assert st.steps == st0.steps + [st.steps[|st.steps| - 1]];
        assert st.claimed == st0.claimed + st.steps[|st.steps| - 1].vertices;
        forall v | v in st.claimed
          ensures exists k :: 0 <= k < |st.steps| && v in st.steps[k].vertices
        {
          if v in st0.claimed {
            var k :| 0 <= k < |st0.steps| && v in st0.steps[k].vertices;
            assert st.steps[k] == st0.steps[k];
          } else {
            assert v in st.steps[|st.steps| - 1].vertices;
          }
        }
        forall v, k | 0 <= k < |st.steps| && v in st.steps[k].vertices
          ensures v in st.claimed
        {
          if k < |st0.steps| {
            assert st.steps[k] == st0.steps[k];
          }
        }
      }
    }
  }

  /** No drawing is for "others", and the deferred directive is the last "others" one. */
  lemma PartsDirectives(ds: seq<MLayoutGraph>, vertices: seq<Vertex>, facts: seq<Vertex> -> GraphFacts)
    requires PartsSpec(ds, vertices, facts).Success?
    ensures var st := PartsSpec(ds, vertices, facts).value;
      && (forall k :: 0 <= k < |st.steps| ==> st.steps[k].directive.graph.Some? && st.steps[k].directive.graph.value != "others")
      && (st.others.Some? ==> st.others.value in ds && st.others.value.graph == Some("others"))
      && (st.others.None? <==> NoOthers(ds))
  {
    PartsStepsNamed(ds, vertices, facts);
    PartsOthers(ds, vertices, facts);
  }

  /** Every drawing made in the loop is for a named subgraph other than "others". */
  lemma {:induction false} PartsStepsNamed(ds: seq<MLayoutGraph>, vertices: seq<Vertex>, facts: seq<Vertex> -> GraphFacts)
    requires PartsSpec(ds, vertices, facts).Success?
    ensures var st := PartsSpec(ds, vertices, facts).value;
      forall k :: 0 <= k < |st.steps| ==> st.steps[k].directive.graph.Some? && st.steps[k].directive.graph.value != "others"
  {
    if ds != [] {
      var pre := ds[..|ds| - 1];
      PartsStepsNamed(pre, vertices, facts);
      var st0 := PartsSpec(pre, vertices, facts).value;
      var st := PartsSpec(ds, vertices, facts).value;
      if ds[|ds| - 1].graph.value != "others" {
        assert st.steps == st0.steps + [st.steps[|st.steps| - 1]];
      }
    }
  }

  /** The deferred directive is an "others" one of the list, present exactly when the
      list has one. */
  lemma PartsOthers(ds: seq<MLayoutGraph>, vertices: seq<Vertex>, facts: seq<Vertex> -> GraphFacts)
    requires PartsSpec(ds, vertices, facts).Success?
    ensures var st := PartsSpec(ds, vertices, facts).value;
      && (st.others.Some? ==> st.others.value in ds && st.others.value.graph == Some("others"))
      && (st.others.None? <==> NoOthers(ds))
  {
    PartsOthersFrom(ds, vertices, facts);
    PartsOthersAbsent(ds, vertices, facts);
  }

  /** A deferred directive is an "others" one of the list. */
  lemma {:induction false} PartsOthersFrom(ds: seq<MLayoutGraph>, vertices: seq<Vertex>, facts: seq<Vertex> -> GraphFacts)
    requires PartsSpec(ds, vertices, facts).Success?
    ensures var st := PartsSpec(ds, vertices, facts).value;
      st.others.Some? ==> st.others.value in ds && st.others.value.graph == Some("others")
  {
    if ds != [] {
      var pre := ds[..|ds| - 1];
      PartsOthersFrom(pre, vertices, facts);
      var last := ds[|ds| - 1];
      assert ds == pre + [last];
      var st0 := PartsSpec(pre, vertices, facts).value;
      var st := PartsSpec(ds, vertices, facts).value;
      assert st == PartStep(st0, last, vertices, facts).value;
      if last.graph.value != "others" {
        assert st.others == st0.others;
      }
    }
  }

  /** No directive is deferred exactly when no directive of the list is for "others". */
  lemma {:induction false} PartsOthersAbsent(ds: seq<MLayoutGraph>, vertices: seq<Vertex>, facts: seq<Vertex> -> GraphFacts)
    requires PartsSpec(ds, vertices, facts).Success?
    ensures PartsSpec(ds, vertices, facts).value.others.None? <==> NoOthers(ds)
  {
    if ds != [] {
      var pre := ds[..|ds| - 1];
      PartsOthersAbsent(pre, vertices, facts);
      NoOthersSplit(ds);
      var st0 := PartsSpec(pre, vertices, facts).value;
      assert PartsSpec(ds, vertices, facts) == PartStep(st0, ds[|ds| - 1], vertices, facts);
    }
  }

  /** No directive of the list is for "others". */
  predicate NoOthers(ds: seq<MLayoutGraph>)
  {
    forall i :: 0 <= i < |ds| ==> ds[i].graph != Some("others")
  }

  lemma NoOthersSplit(ds: seq<MLayoutGraph>)
    requires ds != []
    ensures NoOthers(ds) <==> NoOthers(ds[..|ds| - 1]) && ds[|ds| - 1].graph != Some("others")
  {
    var pre := ds[..|ds| - 1];
    if NoOthers(pre) && ds[|ds| - 1].graph != Some("others") {
      forall i | 0 <= i < |ds| ensures ds[i].graph != Some("others") {
        if i < |pre| {
          assert ds[i] == pre[i];
        }
      }
    }
  }

  /** The "others" drawing comes last and receives exactly the vertices that no
      explicit subgraph's drawing received. */
  lemma OthersGetTheRest(s: MLayoutSubgraphs, vertices: seq<Vertex>, facts: seq<Vertex> -> GraphFacts)
    requires LayoutSpec(Interpreter.Several(s), vertices, facts).Success?
    requires exists i :: 0 <= i < |s.subgraphs| && s.subgraphs[i].graph == Some("others")
    ensures var steps := LayoutSpec(Interpreter.Several(s), vertices, facts).value.steps;
      && |steps| >= 1
      && steps[|steps| - 1].directive.graph == Some("others")
      && forall v :: v in steps[|steps| - 1].vertices <==>
           v in vertices && forall k :: 0 <= k < |steps| - 1 ==> v !in steps[k].vertices
  {
    PartsSpecFacts(s.subgraphs, vertices, facts);
    var st := PartsSpec(s.subgraphs, vertices, facts).value;
    UnclaimedSpec(vertices, st.claimed);
    var steps := LayoutSpec(Interpreter.Several(s), vertices, facts).value.steps;
    assert steps[..|steps| - 1] == st.steps;
    assert forall k :: 0 <= k < |steps| - 1 ==> steps[k] == st.steps[k];
  }

  /** A single directive that carries an exception message is rejected with it. */
  lemma SingleExceptionRaised(d: MLayoutGraph, vertices: seq<Vertex>, facts: seq<Vertex> -> GraphFacts)
    requires d.exception != ""
    ensures LayoutSpec(Interpreter.Single(Some(d)), vertices, facts) == Failure(DSLException(d.exception))
  {
  }

  /** An index token of a nonzero vertex index is a comma-free, non-empty number. */
  lemma IndexTokenShape(v: Interpreter.VertexRef)
    requires v.index >= 1
    ensures CommaFree(Interpreter.Token(v)) && Interpreter.Token(v) != ""
  {
    var s := Interpreter.NatToString(v.index);
    assert Interpreter.Token(v) == s;
    assert forall i :: 0 <= i < |s| ==> s[i] != ',' by {
      forall i | 0 <= i < |s| ensures s[i] != ',' {
        assert '0' <= s[i] <= '9';
      }
    }
  }

  /** The interpreter's target for vertices given by index is split back into those
      vertices: vertex reference k selects `vertices[index_k]`. */
  lemma IndexTargetRoundTrip(refs: seq<Interpreter.VertexRef>, vertices: seq<Vertex>)
    requires refs != []
    requires forall k :: 0 <= k < |refs| ==> 1 <= refs[k].index < |vertices| && refs[k].index <= IntMax
    ensures var r := IndexedVertices(JavaSplit(Interpreter.Target(refs)), vertices);
      && r.Success? && |r.value| == |refs|
      && forall k :: 0 <= k < |refs| ==> r.value[k] == vertices[refs[k].index]
  {
    var ts := Interpreter.Tokens(refs);
    forall k | 0 <= k < |ts|
      ensures CommaFree(ts[k]) && ts[k] != ""
      ensures TokenVertex(ts[k], vertices) == Success(vertices[refs[k].index])
    {
      IndexTokenShape(refs[k]);
      ParseIntOfIntToString(refs[k].index);
    }
    JavaSplitJoined(ts);
    IndexedVerticesSucceed(ts, vertices);
  }

  // ---------------------------------------------------------------------------
  // positionDrawing: placing subgraph drawings in rows

  const StartX: int := 200
  const StartY: int := 200
  const SpaceX: int := 200
  const SpaceY: int := 200
  const NumInRow: int := 4

  /** The counters of positionDrawing: where the next drawing starts, the tallest
      drawing of the current row, and the drawing counter. */
  datatype PositionState = PositionState(x: int, y: int, maxYInRow: int, index: int)

  const InitialPosition := PositionState(StartX, StartY, 0, 1)

  function Max(a: int, b: int): int { if a > b then a else b }

  /** The counters after placing a drawing of the given width and height, as written:
      the next drawing starts SpaceX to the right, and a row ends when the counter is a
      multiple of NumInRow; the counter itself is never advanced. */
  function PlaceNext(st: PositionState, width: int, height: int): PositionState
  {
    var maxY := Max(height, st.maxYInRow);
    if st.index % NumInRow == 0 then PositionState(StartX, st.y + maxY + SpaceY, 0, st.index)
    else PositionState(st.x + width + SpaceX, st.y, maxY, st.index)
  }

  /** The counters as evidently intended: the counter counts the drawings. */
  function PlaceNextIntended(st: PositionState, width: int, height: int): PositionState
  {
    var maxY := Max(height, st.maxYInRow);
    if st.index % NumInRow == 0 then PositionState(StartX, st.y + maxY + SpaceY, 0, st.index + 1)
    else PositionState(st.x + width + SpaceX, st.y, maxY, st.index + 1)
  }

  /** A drawing's size: its width and height (Drawing.getBounds). */
  datatype Size = Size(width: int, height: int)

  function PlaceAll(st: PositionState, sizes: seq<Size>): PositionState
  {
    if sizes == [] then st
    else
      var last := sizes[|sizes| - 1];
      PlaceNext(PlaceAll(st, sizes[..|sizes| - 1]), last.width, last.height)
  }

  function PlaceAllIntended(st: PositionState, sizes: seq<Size>): PositionState
  {
    if sizes == [] then st
    else
      var last := sizes[|sizes| - 1];
      PlaceNextIntended(PlaceAllIntended(st, sizes[..|sizes| - 1]), last.width, last.height)
  }

  /** As written, however many drawings are placed, all stay in the first row: the
      counter stays 1 and the vertical start never moves. */
  lemma {:induction false} AllDrawingsInFirstRow(sizes: seq<Size>)
    ensures PlaceAll(InitialPosition, sizes).y == StartY
    ensures PlaceAll(InitialPosition, sizes).index == 1
    ensures PlaceAll(InitialPosition, sizes).maxYInRow == MaxHeight(sizes)
    ensures PlaceAll(InitialPosition, sizes).x ==
              StartX + SumWidths(sizes) + SpaceX * |sizes|
  {
    if sizes != [] {
      AllDrawingsInFirstRow(sizes[..|sizes| - 1]);
    }
  }

  function SumWidths(sizes: seq<Size>): int
  {
    if sizes == [] then 0 else SumWidths(sizes[..|sizes| - 1]) + sizes[|sizes| - 1].width
  }

  function MaxHeight(sizes: seq<Size>): int
  {
    if sizes == [] then 0 else Max(MaxHeight(sizes[..|sizes| - 1]), sizes[|sizes| - 1].height)
  }

  /** As intended, the counter runs through a row: after k < NumInRow drawings of a
      fresh row, the row's tallest height so far is kept and the counter is k + 1. */
  lemma {:induction false} IntendedRowPrefix(sizes: seq<Size>)
    requires |sizes| < NumInRow
    ensures var st := PlaceAllIntended(InitialPosition, sizes);
      st == PositionState(StartX + SumWidths(sizes) + SpaceX * |sizes|, StartY, MaxHeight(sizes), |sizes| + 1)
  {
    if sizes != [] {
      IntendedRowPrefix(sizes[..|sizes| - 1]);
    }
  }

  /** As intended, the fourth drawing ends the first row: the next one starts at the
      left margin, below the tallest drawing of the row. */
  lemma IntendedFirstRowWraps(sizes: seq<Size>)
    requires |sizes| == NumInRow
    requires forall k :: 0 <= k < |sizes| ==> sizes[k].height >= 0
    ensures PlaceAllIntended(InitialPosition, sizes) ==
              PositionState(StartX, StartY + MaxHeight(sizes) + SpaceY, 0, NumInRow + 1)
  {
    var pre := sizes[..|sizes| - 1];
    IntendedRowPrefix(pre);
  }

  /** n drawings of the same size. */
  function Copies(d: Size, n: nat): (r: seq<Size>)
    ensures |r| == n && forall k :: 0 <= k < n ==> r[k] == d
  {
    if n == 0 then [] else Copies(d, n - 1) + [d]
  }

  /** n drawings of one size are n widths wide and as tall as one of them. */
  lemma {:induction false} CopiesSizes(d: Size, n: nat)
    requires d.height >= 0
    ensures SumWidths(Copies(d, n)) == n * d.width
    ensures MaxHeight(Copies(d, n)) == if n == 0 then 0 else d.height
  {
    if n > 0 {
      var r := Copies(d, n);
      assert r[..n - 1] == Copies(d, n - 1);
      CopiesSizes(d, n - 1);
    }
  }

  /** Four drawings 100 by 100: as written the next one starts at x = 1400 in the
      first row. */
  lemma FifthDrawingAsWritten()
    ensures PlaceAll(InitialPosition, [Size(100, 100), Size(100, 100), Size(100, 100), Size(100, 100)]) ==
              PositionState(1400, 200, 100, 1)
  {
    var four := Copies(Size(100, 100), 4);
    assert four == [Size(100, 100), Size(100, 100), Size(100, 100), Size(100, 100)];
    CopiesSizes(Size(100, 100), 4);
    AllDrawingsInFirstRow(four);
  }

  /** The same four drawings as intended: the next one starts a second row at
      x = 200, y = 500. */
  lemma FifthDrawingIntended()
    ensures PlaceAllIntended(InitialPosition, [Size(100, 100), Size(100, 100), Size(100, 100), Size(100, 100)]) ==
              PositionState(200, 500, 0, 5)
  {
    var four := Copies(Size(100, 100), 4);
    assert four == [Size(100, 100), Size(100, 100), Size(100, 100), Size(100, 100)];
    CopiesSizes(Size(100, 100), 4);
    IntendedFirstRowWraps(four);
  }

  /** The layouter's placement counters, which positionDrawing updates in place. */
  class Positioner {
    var currentStartPositionX: int
    var currentStartPositionY: int
    var maxYInRow: int
    var currentIndex: int

    function State(): PositionState
      reads this
    {
      PositionState(currentStartPositionX, currentStartPositionY, maxYInRow, currentIndex)
    }

    constructor ()
      ensures State() == InitialPosition
    {
      currentStartPositionX := StartX;
      currentStartPositionY := StartY;
      maxYInRow := 0;
      currentIndex := 1;
    }

    /** positionDrawing for a drawing whose leftmost point, top, width and height are
        given: the offsets move its leftmost point and top to the current start
        position, and the counters advance as PlaceNext says. */
    method PositionDrawing(leftmost: int, top: int, width: int, height: int) returns (moveByX: int, moveByY: int)
      modifies this
      ensures moveByX + leftmost == old(currentStartPositionX) && moveByY + top == old(currentStartPositionY)
      ensures State() == PlaceNext(old(State()), width, height)
    {
      moveByX := currentStartPositionX - leftmost;
      moveByY := currentStartPositionY - top;
      if height > maxYInRow {
        maxYInRow := height;
      }
      currentStartPositionX := currentStartPositionX + width + SpaceX;
      if currentIndex % NumInRow == 0 {
        currentStartPositionY := currentStartPositionY + maxYInRow + SpaceY;
        maxYInRow := 0;
        currentStartPositionX := StartX;
      }
    }
  }
}
