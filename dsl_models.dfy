/** The value objects of the layout DSL (GraphLayoutDSL/src/models/pythonmodels.py):
    a layout directive for a graph or a subgraph, the list of subgraph directives,
    and the Expression/Term/Factor tree of aesthetic criteria.

    Python objects whose fields are only set by their constructors are datatypes
    here; a getter is a function of the datatype. A getter that reads an attribute
    the constructor never set raises AttributeError in Python, so it returns a
    Result whose failure names the missing attribute. */
module PythonModels {
  import opened Wrappers

  /** A value found in a textX model object: a scalar, Python's None, or a list
      of further model objects (as for the `properties` of an algorithm). */
  datatype Value = IntV(i: int) | StrV(s: string) | BoolV(b: bool) | NoneV | NodesV(nodes: seq<CstNode>)

  /** A textX model object, seen through its `__dict__`: its attributes in the
      order in which they are enumerated. */
  datatype CstNode = CstNode(attrs: seq<Attr>)

  datatype Attr = Attr(name: string, value: Value)

  /** A Python exception that the interpreter does not catch. */
  datatype Fault =
    | AttributeError(attribute: string)
    | UnboundLocalError(variable: string)
    | TypeError(reason: string)

  type PropertyMap = map<string, Value>

  /** MLayoutGraph: how one graph or subgraph is to be laid out. */
  datatype MLayoutGraph = MLayoutGraph(
    graph: Option<string>,
    layoutType: Option<string>,
    style: string,
    aestheticCriteria: Option<seq<PropertyMap>>,
    algorithm: Option<PropertyMap>,
    graphContent: bool,
    exception: string,
    criteriaExpression: Option<MExpression>)

  /** The constructor, with the defaults of its keyword arguments. */
  function NewLayoutGraph(graph: Option<string> := None, layoutType: Option<string> := None,
                          style: string := "", graphContent: bool := false,
                          aestheticCriteria: Option<seq<PropertyMap>> := None,
                          algorithm: Option<PropertyMap> := None,
                          criteriaExpression: Option<MExpression> := None,
                          exception: string := ""): MLayoutGraph
  {
    MLayoutGraph(graph, layoutType, style, aestheticCriteria, algorithm, graphContent, exception, criteriaExpression)
  }

  function GetGraph(g: MLayoutGraph): Option<string> { g.graph }
  function GetType(g: MLayoutGraph): Option<string> { g.layoutType }
  function GetStyle(g: MLayoutGraph): string { g.style }
  function GetAestheticCriteria(g: MLayoutGraph): Option<seq<PropertyMap>> { g.aestheticCriteria }
  function GetAlgorithm(g: MLayoutGraph): Option<PropertyMap> { g.algorithm }
  function IsGraphContent(g: MLayoutGraph): bool { g.graphContent }
  function GetException(g: MLayoutGraph): string { g.exception }
  function GetCriteriaExpression(g: MLayoutGraph): Option<MExpression> { g.criteriaExpression }

  /** A constructor call that passes nothing gets style "", graphContent false,
      exception "" and every other field None. */
  lemma LayoutGraphDefaults()
    ensures var g := NewLayoutGraph();
      && GetGraph(g) == None && GetType(g) == None && GetStyle(g) == ""
      && GetAestheticCriteria(g) == None && GetAlgorithm(g) == None
      && !IsGraphContent(g) && GetException(g) == "" && GetCriteriaExpression(g) == None
  {
  }

  /** Every getter of MLayoutGraph gives back exactly what the constructor was given. */
  lemma LayoutGraphGetters(graph: Option<string>, layoutType: Option<string>, style: string,
                           graphContent: bool, criteria: Option<seq<PropertyMap>>,
                           algorithm: Option<PropertyMap>, expression: Option<MExpression>,
                           exception: string)
    ensures var g := NewLayoutGraph(graph, layoutType, style, graphContent, criteria, algorithm, expression, exception);
      && GetGraph(g) == graph && GetType(g) == layoutType && GetStyle(g) == style
      && GetAestheticCriteria(g) == criteria && GetAlgorithm(g) == algorithm
      && IsGraphContent(g) == graphContent && GetException(g) == exception
      && GetCriteriaExpression(g) == expression
  {
  }

  /** MLayoutSubgraphs: the directives of a description made of subgraphs. */
  datatype MLayoutSubgraphs = MLayoutSubgraphs(subgraphs: seq<MLayoutGraph>)

  function GetSubgraphs(s: MLayoutSubgraphs): seq<MLayoutGraph> { s.subgraphs }

  /** getSubgraphs returns the list it was built from, in the same order. */
  lemma SubgraphsKeepOrder(list: seq<MLayoutGraph>, i: nat)
    requires i < |list|
    ensures |GetSubgraphs(MLayoutSubgraphs(list))| == |list|
    ensures GetSubgraphs(MLayoutSubgraphs(list))[i] == list[i]
  {
  }

  /** The criteria expression: an OR of terms, a term an AND of factors, a factor
      a possibly negated criterion or parenthesised expression. Python stores the
      constructor argument of MExpression under the attribute `attrterms`. */
  datatype MExpression = MExpression(attrterms: seq<MTerm>)
  datatype MTerm = MTerm(factors: seq<MFactor>)
  /** MFactor stores its criterion under the misspelt attribute `att_aestheti_criterion`. */
  datatype MFactor = MFactor(negative: bool, aestheticCriterion: Option<PropertyMap>, expression: Option<MExpression>)

  function NewFactor(negative: bool := false, aestheticCriterion: Option<PropertyMap> := None,
                     expression: Option<MExpression> := None): MFactor
  {
    MFactor(negative, aestheticCriterion, expression)
  }

  /** MExpression.getTerms as written: it reads `att_terms`, which no code sets. */
  function GetTerms(e: MExpression): Result<seq<MTerm>, Fault>
  {
    Failure(AttributeError("att_terms"))
  }

  /** The getter as evidently intended: it reads the attribute the constructor set. */
  function GetTermsIntended(e: MExpression): Result<seq<MTerm>, Fault>
  {
    Success(e.attrterms)
  }

  /** Whatever terms an MExpression is built from, getTerms raises AttributeError. */
  lemma GetTermsAlwaysFails(terms: seq<MTerm>)
    ensures GetTerms(MExpression(terms)).Failure?
    ensures GetTerms(MExpression(terms)).error == AttributeError("att_terms")
  {
  }

  /** The intended getter gives back the terms of the constructor. */
  lemma GetTermsIntendedRoundTrip(terms: seq<MTerm>)
    ensures GetTermsIntended(MExpression(terms)) == Success(terms)
  {
  }

  function GetFactors(t: MTerm): seq<MFactor> { t.factors }

  /** MTerm.getFactors returns the factor list passed to the constructor. */
  lemma GetFactorsRoundTrip(factors: seq<MFactor>)
    ensures GetFactors(MTerm(factors)) == factors
  {
  }

  function IsNegative(f: MFactor): bool { f.negative }
  function GetExpression(f: MFactor): Option<MExpression> { f.expression }

  /** MFactor.getAestheticCriterion as written: it reads `att_aesthetic_criterion`,
      while the constructor stored `att_aestheti_criterion`. */
  function GetAestheticCriterion(f: MFactor): Result<Option<PropertyMap>, Fault>
  {
    Failure(AttributeError("att_aesthetic_criterion"))
  }

  /** The getter as evidently intended. */
  function GetAestheticCriterionIntended(f: MFactor): Result<Option<PropertyMap>, Fault>
  {
    Success(f.aestheticCriterion)
  }

  /** A factor is not negated unless asked; isNegative and getExpression give back the
      constructor's arguments; getAestheticCriterion raises AttributeError whatever
      the factor holds, while the intended getter gives the criterion back. */
  lemma FactorGetters(negative: bool, criterion: Option<PropertyMap>, expression: Option<MExpression>)
    ensures !IsNegative(NewFactor())
    ensures IsNegative(NewFactor(negative, criterion, expression)) == negative
    ensures GetExpression(NewFactor(negative, criterion, expression)) == expression
    ensures GetAestheticCriterion(NewFactor(negative, criterion, expression)) == Failure(AttributeError("att_aesthetic_criterion"))
    ensures GetAestheticCriterionIntended(NewFactor(negative, criterion, expression)) == Success(criterion)
  {
  }
}
