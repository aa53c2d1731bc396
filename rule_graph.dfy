/**
 * The rule network: a directed graph with an edge from every antecedent item
 * to every consequent item of each selected rule, built by nested loops that
 * add one edge at a time.
 */
module RuleGraph {
  import opened Rules

  /** A directed edge (from, to) between two items. */
  type Edge = (string, string)

  /** Every pair of an item of `from` with an item of `to`. */
  function Product(from: set<string>, to: set<string>): (edges: set<Edge>)
    ensures forall e :: e in edges <==> e.0 in from && e.1 in to
  {
    set a, c | a in from && c in to :: (a, c)
  }

  /** The edges contributed by the rules, one product per rule. */
  function RuleEdges(rules: seq<Rule>): set<Edge>
    decreases |rules|
  {
    if rules == [] then {}
    else RuleEdges(rules[..|rules| - 1]) + Product(rules[|rules| - 1].antecedents, rules[|rules| - 1].consequents)
  }

  /** The items at either end of some edge. */
  function Endpoints(edges: set<Edge>): set<string>
  {
    (set e | e in edges :: e.0) + (set e | e in edges :: e.1)
  }

  /**
   * The edge set is the union, over the rules, of antecedents × consequents:
   * (a, c) is an edge exactly when one rule has a among its antecedents and c
   * among its consequents.
   */
  lemma {:induction false} RuleEdgesAreUnion(rules: seq<Rule>, e: Edge)
    ensures e in RuleEdges(rules) <==>
              exists i :: 0 <= i < |rules| && e.0 in rules[i].antecedents && e.1 in rules[i].consequents
    decreases |rules|
  {
    if rules != [] {
      var init := rules[..|rules| - 1];
      RuleEdgesAreUnion(init, e);
      assert forall i :: 0 <= i < |init| ==> init[i] == rules[i];
      if e.0 in rules[|rules| - 1].antecedents && e.1 in rules[|rules| - 1].consequents {
        assert e in Product(rules[|rules| - 1].antecedents, rules[|rules| - 1].consequents);
      }
    }
  }

  /** Every node of the graph is an item of some selected rule. */
  lemma {:induction false} EndpointsAreRuleItems(rules: seq<Rule>, x: string)
    requires x in Endpoints(RuleEdges(rules))
    ensures exists i :: 0 <= i < |rules| && x in rules[i].antecedents + rules[i].consequents
  {
    var e :| e in RuleEdges(rules) && (x == e.0 || x == e.1);
    RuleEdgesAreUnion(rules, e);
  }

  /**
   * Conversely, every item of a selected rule whose two sides are non-empty is
   * a node of the graph.
   */
  lemma {:induction false} RuleItemsAreEndpoints(rules: seq<Rule>, i: nat)
    requires i < |rules| && rules[i].antecedents != {} && rules[i].consequents != {}
    ensures rules[i].antecedents + rules[i].consequents <= Endpoints(RuleEdges(rules))
  {
    var a0 :| a0 in rules[i].antecedents;
    var c0 :| c0 in rules[i].consequents;
    forall a | a in rules[i].antecedents
      ensures a in Endpoints(RuleEdges(rules))
    {
      RuleEdgesAreUnion(rules, (a, c0));
    }
    forall c | c in rules[i].consequents
      ensures c in Endpoints(RuleEdges(rules))
    {
      RuleEdgesAreUnion(rules, (a0, c));
    }
  }

  /** The directed graph: its nodes and its edges. */
  class DiGraph {
    var nodes: set<string>
    var edges: set<Edge>

    /** Both ends of every edge are nodes. */
    ghost predicate Valid()
      reads this
    {
      forall e :: e in edges ==> e.0 in nodes && e.1 in nodes
    }

    /** The empty graph. */
    constructor ()
      ensures Valid() && nodes == {} && edges == {}
    {
      nodes := {};
      edges := {};
    }

    /** Adds the edge (u, v), and u and v as nodes if they are new. */
    method AddEdge(u: string, v: string)
      requires Valid()
      modifies this
      ensures Valid()
      ensures edges == old(edges) + {(u, v)}
      ensures nodes == old(nodes) + {u, v}
    {
      edges := edges + {(u, v)};
      nodes := nodes + {u, v};
    }
  }

  /** The innermost loop: an edge from `a` to each item of `to`. */
  method AddEdgesFrom(g: DiGraph, a: string, to: set<string>)
    requires g.Valid() && g.nodes == Endpoints(g.edges)
    modifies g
    ensures g.Valid() && g.nodes == Endpoints(g.edges)
    ensures g.edges == old(g.edges) + Product({a}, to)
  {
    var todo := to;
    while todo != {}
      invariant todo <= to
      invariant g.Valid() && g.nodes == Endpoints(g.edges)
      invariant g.edges == old(g.edges) + Product({a}, to - todo)
      decreases todo
    {
      var c :| c in todo;
      g.AddEdge(a, c);
      assert Product({a}, to - (todo - {c})) == Product({a}, to - todo) + {(a, c)};
      todo := todo - {c};
    }
    assert to - {} == to;
  }

  /** The middle loop: the edges of one rule, antecedent by antecedent. */
  method AddRuleEdges(g: DiGraph, rule: Rule)
    requires g.Valid() && g.nodes == Endpoints(g.edges)
    modifies g
    ensures g.Valid() && g.nodes == Endpoints(g.edges)
    ensures g.edges == old(g.edges) + Product(rule.antecedents, rule.consequents)
  {
    var pending := rule.antecedents;
    while pending != {}
      invariant pending <= rule.antecedents
      invariant g.Valid() && g.nodes == Endpoints(g.edges)
      invariant g.edges == old(g.edges) + Product(rule.antecedents - pending, rule.consequents)
      decreases pending
    {
      var a :| a in pending;
      AddEdgesFrom(g, a, rule.consequents);
      assert {a} * rule.antecedents == {a};
      pending := pending - {a};
    }
    assert rule.antecedents - {} == rule.antecedents;
  }

  /**
   * Builds the rule network: for each rule in turn, for each antecedent item,
   * for each consequent item, one edge. The result's edges are RuleEdges of the
   * rules and its nodes are exactly the ends of those edges.
   */
  method BuildRuleGraph(rules: seq<Rule>) returns (g: DiGraph)
    ensures fresh(g) && g.Valid()
    ensures g.edges == RuleEdges(rules)
    ensures g.nodes == Endpoints(RuleEdges(rules))
  {
    g := new DiGraph();
    for i := 0 to |rules|
      invariant g.Valid() && g.nodes == Endpoints(g.edges)
      invariant g.edges == RuleEdges(rules[..i])
    {
      AddRuleEdges(g, rules[i]);
      assert rules[..i + 1][..i] == rules[..i];
    }
    assert rules[..|rules|] == rules;
  }
}
