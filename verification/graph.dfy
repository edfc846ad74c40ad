/**
  The dependency graph of a system: nodes with run-lists, dependencies,
  option hashes and parent/child edges (`Souffle::Node`). Node objects are
  named by identities, so that "the same node" and "an equal node" stay
  apart as they do in Ruby.
 */
module Graph {
  import opened Wrappers
  import opened RubyHash
  import RubyString

  /** The identity of a node object. */
  type NodeId = nat

  /** A role or recipe entry of a run-list, such as `role[dns_server]`. */
  type Tag = string

  /** The parent multiplier a node gets when none is given. */
  const DefaultMultiplier: int := 5

  datatype Node = Node(
    name: Option<string>,
    options: Hash,
    dependencies: seq<Tag>,
    runList: seq<Tag>,
    parents: seq<NodeId>,
    children: seq<NodeId>,
    multiplier: int,
    inSystem: bool)

  /** Every node object in play, by identity. */
  type Graph = map<NodeId, Node>

  /** `Node.new(multiplier)`: no name, empty lists and edges, and an empty attributes hash. */
  function NewNode(multiplier: int): (n: Node)
    ensures n.dependencies == [] && n.runList == [] && n.parents == [] && n.children == []
    ensures Keys(n.options) == [Sym("attributes")]
    ensures Get(n.options, Sym("attributes")) == Some(Nested([]))
    ensures n.name == None && n.multiplier == multiplier && !n.inSystem
  {
    Node(None, [Entry(Sym("attributes"), Nested([]))], [], [], [], [], multiplier, false)
  }

  /** `Node.new` with no argument: a bare node whose parent multiplier is 5. */
  function NewDefaultNode(): (n: Node)
    ensures n.multiplier == 5
    ensures n == NewNode(n.multiplier)
  {
    NewNode(DefaultMultiplier)
  }

  // ---------------------------------------------------------------------
  // depends_on?
  // ---------------------------------------------------------------------

  /** `a` occurs in `b` in order, possibly with gaps. */
  predicate IsSubsequence<T(==)>(a: seq<T>, b: seq<T>)
    decreases |b|
  {
    if a == [] then true
    else if b == [] then false
    else if a[0] == b[0] then IsSubsequence(a[1..], b[1..])
    else IsSubsequence(a, b[1..])
  }

  lemma {:induction false} SubsequenceSkip<T>(a: seq<T>, b: seq<T>)
    requires b != [] && IsSubsequence(a, b[1..])
    ensures IsSubsequence(a, b)
    decreases |b|, |a|
  {
    if a != [] && a[0] == b[0] {
      SubsequenceDropHead(a, b[1..]);
    }
  }

  lemma {:induction false} SubsequenceDropHead<T>(a: seq<T>, b: seq<T>)
    requires a != [] && IsSubsequence(a, b)
    ensures IsSubsequence(a[1..], b)
    decreases |b|, |a|
  {
    if a[0] == b[0] {
      if a[1..] != [] {
        SubsequenceSkip(a[1..], b);
      }
    } else {
      SubsequenceDropHead(a, b[1..]);
      if a[1..] != [] {
        SubsequenceSkip(a[1..], b);
      }
    }
  }

  /** The entries of `deps` that `runList` includes, in `deps` order, repeats kept. */
  function Matching(deps: seq<Tag>, runList: seq<Tag>): (r: seq<Tag>)
    ensures forall t :: t in r <==> t in deps && t in runList
    ensures forall t :: multiset(r)[t] == if t in runList then multiset(deps)[t] else 0
    ensures IsSubsequence(r, deps)
  {
    if deps == [] then []
    else
      var rest := Matching(deps[1..], runList);
      assert deps == [deps[0]] + deps[1..];
      if deps[0] in runList then
        assert ([deps[0]] + rest)[1..] == rest;
        [deps[0]] + rest
      else
        SubsequenceSkip(rest, deps);
        rest
  }

  /**
    `node.depends_on?(other)`: whether any dependency of `node` is on the
    run-list of `other`, paired with the matching dependencies.
   */
  function DependsOn(node: Node, other: Node): (r: (bool, seq<Tag>))
    ensures r.0 <==> exists t :: t in node.dependencies && t in other.runList
    ensures r.0 <==> r.1 != []
    ensures forall t :: t in r.1 <==> t in node.dependencies && t in other.runList
    ensures forall t :: multiset(r.1)[t] == if t in other.runList then multiset(node.dependencies)[t] else 0
    ensures IsSubsequence(r.1, node.dependencies)
  {
    var list := Matching(node.dependencies, other.runList);
    assert list != [] ==> list[0] in list;
    (list != [], list)
  }

  /** `depends_on?`'s documented example: a dependency on another node's role. */
  lemma DependsOnDocExample(n1: Node, n2: Node)
    requires n1.runList == ["role[dns_server]"]
    requires n2.dependencies == ["role[dns_server]"]
    ensures DependsOn(n2, n1) == (true, ["role[dns_server]"])
  {
    var deps := n2.dependencies;
    assert deps[0] in n1.runList && deps[1..] == [];
    assert Matching(deps[1..], n1.runList) == [];
    assert Matching(deps, n1.runList) == ["role[dns_server]"];
  }

  // ---------------------------------------------------------------------
  // eql?
  // ---------------------------------------------------------------------

  /**
    `a.eql?(b)`: same dependencies and same run-list; nothing else is
    compared, so it holds exactly when the two descriptions agree on those
    two lists.
   */
  function Eql(a: Node, b: Node): (r: bool)
    ensures r <==>
              Get(ToHash(a, Nil), Sym("dependencies")) == Get(ToHash(b, Nil), Sym("dependencies"))
              && Get(ToHash(a, Nil), Sym("run_list")) == Get(ToHash(b, Nil), Sym("run_list"))
  {
    a.dependencies == b.dependencies && a.runList == b.runList
  }

  /** Nodes that are `eql?` are interchangeable as far as `depends_on?` is concerned. */
  lemma DependsOnRespectsEql(a: Node, a': Node, b: Node, b': Node)
    requires Eql(a, a') && Eql(b, b')
    ensures DependsOn(a, b) == DependsOn(a', b')
  {
  }

  // ---------------------------------------------------------------------
  // add_child
  // ---------------------------------------------------------------------

  /**
    The argument of `add_child`: a node of the graph, or some other object
    that may or may not answer `dependencies` and `run_list`.
   */
  datatype Candidate = Member(id: NodeId) | Foreign(respondsToDependencies: bool, respondsToRunList: bool)

  datatype GraphError =
    | InvalidChild   // Souffle::Exceptions::InvalidChild
    | NotANode       // a duck-typed object outside the graph

  /** The graph after a call, and the exception it raised if any. */
  datatype Outcome = Outcome(graph: Graph, raised: Option<GraphError>)

  /** `b` is `a` with different edges at most. */
  predicate SameButEdges(a: Node, b: Node)
  {
    a.(parents := b.parents, children := b.children) == b
  }

  /** `g'` is `g` with the one edge `p -> c` appended on both ends. */
  predicate AddedEdge(g: Graph, g': Graph, p: NodeId, c: NodeId)
    requires p in g && c in g
  {
    && g'.Keys == g.Keys
    && g'[p].children == g[p].children + [c]
    && g'[c].parents == g[c].parents + [p]
    && (p != c ==> g'[p].parents == g[p].parents && g'[c].children == g[c].children)
    && SameButEdges(g[p], g'[p]) && SameButEdges(g[c], g'[c])
    && forall n :: n in g && n != p && n != c ==> g'[n] == g[n]
  }

  /**
    `parent.add_child(child)`: rejects an object without `dependencies` and
    `run_list`; otherwise, unless `child` is already one of the children
    (by identity), appends `parent` to the child's parents and `child` to
    the parent's children.
   */
  function AddChild(g: Graph, parent: NodeId, child: Candidate): (r: Outcome)
    requires parent in g
    requires child.Member? ==> child.id in g
    ensures r.raised.Some? ==> r.graph == g
    ensures r.raised == Some(InvalidChild) <==>
              child.Foreign? && !(child.respondsToDependencies && child.respondsToRunList)
    ensures r.raised == Some(NotANode) <==>
              child.Foreign? && child.respondsToDependencies && child.respondsToRunList
    ensures child.Member? && child.id in g[parent].children ==> r == Outcome(g, None)
    ensures child.Member? && child.id !in g[parent].children ==>
              r.raised == None && AddedEdge(g, r.graph, parent, child.id)
  {
    match child
    case Foreign(deps, runList) =>
      if !(deps && runList) then Outcome(g, Some(InvalidChild)) else Outcome(g, Some(NotANode))
    case Member(c) =>
      if c in g[parent].children then Outcome(g, None)
      else
        var g1 := g[c := g[c].(parents := g[c].parents + [parent])];
        var g2 := g1[parent := g1[parent].(children := g1[parent].children + [c])];
        Outcome(g2, None)
  }

  /** Adding the same child twice is adding it once. */
  lemma AddChildIdempotent(g: Graph, parent: NodeId, child: NodeId)
    requires parent in g && child in g
    ensures var once := AddChild(g, parent, Member(child)).graph;
            AddChild(once, parent, Member(child)) == Outcome(once, None)
  {
    var once := AddChild(g, parent, Member(child)).graph;
    if child !in g[parent].children {
      assert once[parent].children[|g[parent].children|] == child;
    }
  }

  /**
    Membership is by identity, not `eql?`: a second node with the same
    dependencies and run-list as the first child (so `eql?` to it) is still
    added.
   */
  lemma AddChildByIdentity(g: Graph, parent: NodeId, a: NodeId, b: NodeId)
    requires parent in g && a in g && b in g && a != b
    requires g[a].dependencies == g[b].dependencies && g[a].runList == g[b].runList
    requires a !in g[parent].children && b !in g[parent].children
    ensures var g1 := AddChild(g, parent, Member(a)).graph;
            var g2 := AddChild(g1, parent, Member(b)).graph;
            g2[parent].children == g[parent].children + [a, b]
  {
    var g1 := AddChild(g, parent, Member(a)).graph;
    assert g1[parent].children == g[parent].children + [a];
    assert b !in g1[parent].children;
    assert g[parent].children + [a] + [b] == g[parent].children + [a, b];
  }

  predicate NoDuplicates<T(==)>(s: seq<T>)
  {
    forall i, j :: 0 <= i < j < |s| ==> s[i] != s[j]
  }

  /**
    A graph built by `add_child` alone: every edge points into the graph,
    each edge is recorded on both ends, and no edge is recorded twice.
   */
  predicate WellFormed(g: Graph)
  {
    && (forall n, c :: n in g && c in g[n].children ==> c in g)
    && (forall n, p :: n in g && p in g[n].parents ==> p in g)
    && (forall p, c :: p in g && c in g ==> (c in g[p].children <==> p in g[c].parents))
    && (forall n :: n in g ==> NoDuplicates(g[n].children) && NoDuplicates(g[n].parents))
  }

  lemma AppendFresh<T>(s: seq<T>, x: T)
    requires NoDuplicates(s) && x !in s
    ensures NoDuplicates(s + [x])
  {
    var t := s + [x];
    forall i, j | 0 <= i < j < |t| ensures t[i] != t[j] {
      if j == |s| {
        assert t[i] == s[i];
      }
    }
  }

  /** `add_child` keeps a graph well formed. */
  lemma AddChildPreservesWellFormed(g: Graph, parent: NodeId, child: NodeId)
    requires WellFormed(g) && parent in g && child in g
    ensures WellFormed(AddChild(g, parent, Member(child)).graph)
  {
    if child !in g[parent].children {
      var g' := AddChild(g, parent, Member(child)).graph;
      assert parent !in g[child].parents;
      NewEdgeInside(g, g', parent, child);
      NewEdgeBothEnds(g, g', parent, child);
      NewEdgeNoDuplicates(g, g', parent, child);
    }
  }

  lemma NewEdgeInside(g: Graph, g': Graph, parent: NodeId, child: NodeId)
    requires WellFormed(g) && parent in g && child in g && AddedEdge(g, g', parent, child)
    ensures forall n, c :: n in g' && c in g'[n].children ==> c in g'
    ensures forall n, p :: n in g' && p in g'[n].parents ==> p in g'
  {
    forall n, c | n in g' && c in g'[n].children ensures c in g' {
      assert c in g[n].children || c == child;
    }
    forall n, p | n in g' && p in g'[n].parents ensures p in g' {
      assert p in g[n].parents || p == parent;
    }
  }

  lemma NewEdgeBothEnds(g: Graph, g': Graph, parent: NodeId, child: NodeId)
    requires WellFormed(g) && parent in g && child in g && AddedEdge(g, g', parent, child)
    ensures forall x, y :: x in g' && y in g' ==> (y in g'[x].children <==> x in g'[y].parents)
  {
    forall x, y | x in g' && y in g' ensures (y in g'[x].children <==> x in g'[y].parents) {
      NewEdgeMembership(g, g', parent, child, x, y);
    }
  }

  /** After adding `parent -> child`, an edge is recorded exactly if it was before or is the new one. */
  lemma NewEdgeMembership(g: Graph, g': Graph, parent: NodeId, child: NodeId, x: NodeId, y: NodeId)
    requires parent in g && child in g && AddedEdge(g, g', parent, child) && x in g && y in g
    ensures y in g'[x].children <==> y in g[x].children || (x == parent && y == child)
    ensures x in g'[y].parents <==> x in g[y].parents || (x == parent && y == child)
  {
  }

  lemma NewEdgeNoDuplicates(g: Graph, g': Graph, parent: NodeId, child: NodeId)
    requires WellFormed(g) && parent in g && child in g && AddedEdge(g, g', parent, child)
    requires child !in g[parent].children && parent !in g[child].parents
    ensures forall n :: n in g' ==> NoDuplicates(g'[n].children) && NoDuplicates(g'[n].parents)
  {
    AppendFresh(g[parent].children, child);
    AppendFresh(g[child].parents, parent);
    forall n | n in g' ensures NoDuplicates(g'[n].children) && NoDuplicates(g'[n].parents) {
    }
  }

  // ---------------------------------------------------------------------
  // weight
  // ---------------------------------------------------------------------

  /**
    A rank that strictly decreases from every node to each of its parents.
    It exists exactly when the parent relation has no cycle; `weight` does
    not terminate on a cycle.
   */
  predicate Ranked(g: Graph, rank: map<NodeId, nat>)
  {
    && (forall n :: n in g ==> n in rank)
    && (forall n, p :: n in g && p in g[n].parents ==> p in g && rank[p] < rank[n])
  }

  predicate NonNegativeMultipliers(g: Graph)
  {
    forall n :: n in g ==> g[n].multiplier >= 0
  }

  /** `node.weight`: one plus, for each parent, the parent's weight times the node's multiplier. */
  function Weight(g: Graph, rank: map<NodeId, nat>, id: NodeId): (w: int)
    requires Ranked(g, rank) && id in g
    ensures g[id].parents == [] ==> w == 1
    ensures NonNegativeMultipliers(g) ==> w >= 1
    decreases rank[id], 1
  {
    1 + ParentWeights(g, rank, g[id].parents, g[id].multiplier, rank[id])
  }

  /** The sum over `ps` of each weight times `m`. */
  function ParentWeights(g: Graph, rank: map<NodeId, nat>, ps: seq<NodeId>, m: int, bound: nat): (s: int)
    requires Ranked(g, rank)
    requires forall p :: p in ps ==> p in g && rank[p] < bound
    ensures NonNegativeMultipliers(g) && m >= 0 ==> s >= 0
    decreases bound, 0, |ps|
  {
    if ps == [] then 0
    else Weight(g, rank, ps[0]) * m + ParentWeights(g, rank, ps[1..], m, bound)
  }

  /** With one parent of weight `W` and multiplier `M` the weight is `1 + W * M`. */
  lemma WeightOneParent(g: Graph, rank: map<NodeId, nat>, id: NodeId)
    requires Ranked(g, rank) && id in g && |g[id].parents| == 1
    ensures Weight(g, rank, id) == 1 + Weight(g, rank, g[id].parents[0]) * g[id].multiplier
  {
    var ps, m := g[id].parents, g[id].multiplier;
    assert ps[1..] == [];
    assert ParentWeights(g, rank, ps, m, rank[id])
        == Weight(g, rank, ps[0]) * m + ParentWeights(g, rank, [], m, rank[id]);
  }

  /** The weight does not depend on which rank witnesses acyclicity. */
  lemma {:induction false} WeightRankIndependent(g: Graph, r1: map<NodeId, nat>, r2: map<NodeId, nat>, id: NodeId)
    requires Ranked(g, r1) && Ranked(g, r2) && id in g
    ensures Weight(g, r1, id) == Weight(g, r2, id)
    decreases r1[id], 1
  {
    ParentWeightsRankIndependent(g, r1, r2, g[id].parents, g[id].multiplier, r1[id], r2[id]);
  }

  lemma {:induction false} ParentWeightsRankIndependent(g: Graph, r1: map<NodeId, nat>, r2: map<NodeId, nat>,
                                                        ps: seq<NodeId>, m: int, b1: nat, b2: nat)
    requires Ranked(g, r1) && Ranked(g, r2)
    requires forall p :: p in ps ==> p in g && r1[p] < b1 && r2[p] < b2
    ensures ParentWeights(g, r1, ps, m, b1) == ParentWeights(g, r2, ps, m, b2)
    decreases b1, 0, |ps|
  {
    if ps != [] {
      WeightRankIndependent(g, r1, r2, ps[0]);
      ParentWeightsRankIndependent(g, r1, r2, ps[1..], m, b1, b2);
    }
  }

  /** Each term of the sum is at most the sum when no term is negative. */
  lemma {:induction false} ParentWeightsCover(g: Graph, rank: map<NodeId, nat>, ps: seq<NodeId>, m: int, bound: nat, p: NodeId)
    requires Ranked(g, rank) && NonNegativeMultipliers(g) && m >= 0
    requires forall q :: q in ps ==> q in g && rank[q] < bound
    requires p in ps
    ensures ParentWeights(g, rank, ps, m, bound) >= Weight(g, rank, p) * m
    decreases |ps|
  {
    if ps[0] != p {
      ParentWeightsCover(g, rank, ps[1..], m, bound, p);
    }
  }

  /** With multipliers of at least one, a child always outweighs each of its parents. */
  lemma ChildOutweighsParent(g: Graph, rank: map<NodeId, nat>, child: NodeId, parent: NodeId)
    requires Ranked(g, rank) && NonNegativeMultipliers(g) && child in g
    requires parent in g[child].parents && g[child].multiplier >= 1
    ensures Weight(g, rank, child) > Weight(g, rank, parent)
  {
    var m := g[child].multiplier;
    ParentWeightsCover(g, rank, g[child].parents, m, rank[child], parent);
    ScaleUp(Weight(g, rank, parent), m);
  }

  lemma ScaleUp(w: int, m: int)
    requires w >= 1 && m >= 1
    ensures w * m >= w
  {
    assert w * m == w + w * (m - 1);
    assert w * (m - 1) >= 0;
  }

  // ---------------------------------------------------------------------
  // try_opt, tag, domain, fqdn
  // ---------------------------------------------------------------------

  /** What a lookup outside the node gave back: a value, or an exception. */
  datatype Lookup = Returned(value: Value) | Raised

  /**
    The lookups a node falls back on: the owning system's `try_opt` and the
    process configuration `Souffle::Config[]`, neither of which is part of
    this model.
   */
  datatype Env = Env(systemTryOpt: Key -> Lookup, config: Key -> Lookup)

  /** The fallback for `k`: the system's when the node belongs to one, else the configuration's. */
  function Fallback(n: Node, k: Key, env: Env): Lookup
  {
    if n.inSystem then env.systemTryOpt(k) else env.config(k)
  }

  /**
    `node.try_opt(k)`: the node's own option when the key is present (even
    if it holds nil), else the fallback. The fallback is Ruby's argument to
    `fetch`, evaluated first, so when it raises the answer is nil whatever
    the node holds.
   */
  function TryOpt(n: Node, k: Key, env: Env): (r: Value)
    ensures Fallback(n, k, env).Raised? ==> r == Nil
    ensures Fallback(n, k, env).Returned? && k in Keys(n.options) ==> Entry(k, r) in n.options
    ensures Fallback(n, k, env).Returned? && k !in Keys(n.options) ==> r == Fallback(n, k, env).value
  {
    match Fallback(n, k, env)
    case Raised => Nil
    case Returned(d) =>
      match Get(n.options, k)
      case Some(v) => v
      case None => d
  }

  /** Setting an option, even to nil, makes `try_opt` return it unless the fallback raises. */
  lemma TryOptOwnOptionWins(n: Node, k: Key, v: Value, env: Env)
    requires UniqueKeys(n.options) && Fallback(n, k, env).Returned?
    ensures TryOpt(n.(options := Store(n.options, k, v)), k, env) == v
  {
  }

  /** Setting one option leaves `try_opt` of every other key alone. */
  lemma TryOptOtherKey(n: Node, k: Key, k': Key, v: Value, env: Env)
    requires UniqueKeys(n.options) && k != k'
    ensures TryOpt(n.(options := Store(n.options, k, v)), k', env) == TryOpt(n, k', env)
  {
  }

  /** How `Array#join` writes a non-nil value; nested arrays are flattened with the same separator. */
  function Render(v: Value): string
  {
    match v
    case Nil => ""
    case Flag(b) => if b then "true" else "false"
    case Text(s) => s
    case Tags(items) => RubyString.Join(items, ".")
    case Nested(_) => ""
  }

  /** `[name, tag, domain].compact`, written out. */
  function FqdnParts(n: Node, env: Env): seq<string>
  {
    var tag := TryOpt(n, Sym("tag"), env);
    var domain := TryOpt(n, Sym("domain"), env);
    (if n.name.Some? then [n.name.value] else [])
      + (if tag != Nil then [Render(tag)] else [])
      + (if domain != Nil then [Render(domain)] else [])
  }

  /** `node.fqdn`: name, tag and domain, those that are not nil, joined by dots. */
  function Fqdn(n: Node, env: Env): (r: string)
    ensures FqdnParts(n, env) == [] ==> r == ""
  {
    RubyString.Join(FqdnParts(n, env), ".")
  }

  /** Cutting the name at its dots gives back the parts, as long as no part has a dot of its own. */
  lemma FqdnSegments(n: Node, env: Env)
    requires FqdnParts(n, env) != []
    requires RubyString.FreeOf(FqdnParts(n, env), ".")
    ensures RubyString.Fields(Fqdn(n, env), ".", "") == FqdnParts(n, env)
  {
    var parts := FqdnParts(n, env);
    RubyString.FieldsOfJoin(parts, ".", "");
    assert "" + parts[0] == parts[0];
  }

  /** With a name, a tag and a domain that are all strings, the result is `name.tag.domain`. */
  lemma FqdnAllPresent(n: Node, env: Env, name: string, tag: string, domain: string)
    requires n.name == Some(name)
    requires TryOpt(n, Sym("tag"), env) == Text(tag)
    requires TryOpt(n, Sym("domain"), env) == Text(domain)
    ensures Fqdn(n, env) == name + "." + tag + "." + domain
  {
    var parts := FqdnParts(n, env);
    assert parts == [name, tag, domain];
    assert parts[1..] == [tag, domain];
    assert parts[1..][1..] == [domain];
    assert RubyString.Join([domain], ".") == domain;
    assert RubyString.Join([tag, domain], ".") == tag + "." + domain;
    assert RubyString.Join(parts, ".") == name + "." + (tag + "." + domain);
  }

  // ---------------------------------------------------------------------
  // to_hash
  // ---------------------------------------------------------------------

  /**
    `node.to_hash`: name, options, provisioner, dependencies and run-list,
    in that order. The node provisioner is not part of this model; the
    value standing for it is passed in.
   */
  function ToHash(n: Node, provisioner: Value): (h: Hash)
    ensures UniqueKeys(h)
    ensures Keys(h) == [Sym("name"), Sym("options"), Sym("provisioner"), Sym("dependencies"), Sym("run_list")]
    ensures Get(h, Sym("dependencies")) == Some(Tags(n.dependencies))
    ensures Get(h, Sym("run_list")) == Some(Tags(n.runList))
    ensures Get(h, Sym("name")) == Some(if n.name.Some? then Text(n.name.value) else Nil)
    ensures Get(h, Sym("options")) == Some(Nested(n.options))
    ensures Get(h, Sym("provisioner")) == Some(provisioner)
  {
    var h := [
      Entry(Sym("name"), if n.name.Some? then Text(n.name.value) else Nil),
      Entry(Sym("options"), Nested(n.options)),
      Entry(Sym("provisioner"), provisioner),
      Entry(Sym("dependencies"), Tags(n.dependencies)),
      Entry(Sym("run_list"), Tags(n.runList))
    ];
    assert Keys(h) == [Sym("name"), Sym("options"), Sym("provisioner"), Sym("dependencies"), Sym("run_list")];
    GetAt(h, 0);
    GetAt(h, 1);
    GetAt(h, 2);
    GetAt(h, 3);
    GetAt(h, 4);
    h
  }

  /** Edges, multiplier and system membership never show in the description. */
  lemma ToHashIgnoresEdges(a: Node, b: Node, provisioner: Value)
    requires a.name == b.name && a.options == b.options
    requires Eql(a, b)
    ensures ToHash(a, provisioner) == ToHash(b, provisioner)
  {
  }
}
