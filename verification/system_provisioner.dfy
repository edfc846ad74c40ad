/**
  The system provisioning state machine (`Souffle::Provisioner::System`):
  its state/event table, the callbacks that run after each transition,
  the failure counter and retry-or-halt decision, the completed-node
  counter, the three poll-and-deadline waits, and load-balancer member
  selection.

  Timers become explicit inputs: a tick of one of the pollers the machine
  started (carrying the per-node provisioner states it samples), or the
  deadline of one of its waits. Per-node provisioners are not modelled;
  their states are what a tick observes, and the calls the machine makes
  on them (`initialized`, `begin_provision`) and on its collaborators
  (`kill`, `create_lb`) are recorded as counters and logs.
 */
module SystemProvisioner {
  import opened Wrappers
  import Graph
  import Poll

  const DefaultMaxFailures: int := 0

  /** Seconds before a wait gives up. */
  const DefaultTimeout: int := 5400

  /** The node provisioner state a system waits for before load balancing. */
  const ReadyToProvision: string := "ready_to_provision"

  /** The node provisioner state a child waits for in each of its parents. */
  const NodeComplete: string := "complete"

  datatype State =
    | Initializing
    | Creating
    | LoadBalancing
    | Provisioning
    | Complete
    | HandlingError
    | Failed

  datatype Event =
    | Initialized
    | Created
    | LoadBalanced
    | Provisioned
    | ErrorOccurred
    | CreationHalted
    | Reclaimed

  /** The declared transitions; `any` stands for every state, the target included. */
  predicate Declared(e: Event, from: State, to: State)
  {
    match e
    case Initialized => from == Initializing && to == Creating
    case Created => from == Creating && to == LoadBalancing
    case LoadBalanced => from == LoadBalancing && to == Provisioning
    case Provisioned => from == Provisioning && to == Complete
    case ErrorOccurred => to == HandlingError
    case CreationHalted => to == Failed
    case Reclaimed => to == Initializing
  }

  /**
    Firing `e` in state `s`: the new state, or None when no transition is
    declared, in which case the event method returns false and nothing
    happens.
   */
  function Transition(s: State, e: Event): (t: Option<State>)
    ensures forall to :: t == Some(to) <==> Declared(e, s, to)
  {
    match e
    case Initialized => if s == Initializing then Some(Creating) else None
    case Created => if s == Creating then Some(LoadBalancing) else None
    case LoadBalanced => if s == LoadBalancing then Some(Provisioning) else None
    case Provisioned => if s == Provisioning then Some(Complete) else None
    case ErrorOccurred => Some(HandlingError)
    case CreationHalted => Some(Failed)
    case Reclaimed => Some(Initializing)
  }

  // ---------------------------------------------------------------------
  // The system being provisioned
  // ---------------------------------------------------------------------

  /** A load-balancer declaration: its name and the role its members carry. */
  datatype Balancer = Balancer(name: string, role: Graph.Tag)

  /**
    The system: its node graph, its nodes in order, and the load-balancer
    declarations its `try_opt(:load_balancers)` returns (None for nil).
   */
  datatype System = System(graph: Graph.Graph, nodes: seq<Graph.NodeId>, loadBalancers: Option<seq<Balancer>>)

  predicate WellFormedSystem(sys: System)
  {
    && (forall i :: 0 <= i < |sys.nodes| ==> sys.nodes[i] in sys.graph)
    && (forall n, p :: n in sys.graph && p in sys.graph[n].parents ==> p in sys.graph)
  }

  /** The nodes, in system order, whose run-list includes `role`. */
  function Members(g: Graph.Graph, nodes: seq<Graph.NodeId>, role: Graph.Tag): (r: seq<Graph.NodeId>)
    requires forall i :: 0 <= i < |nodes| ==> nodes[i] in g
    ensures forall n :: n in r <==> n in nodes && role in g[n].runList
    ensures forall n :: multiset(r)[n] == if n in g && role in g[n].runList then multiset(nodes)[n] else 0
    ensures Graph.IsSubsequence(r, nodes)
  {
    if nodes == [] then []
    else
      var rest := Members(g, nodes[1..], role);
      assert nodes == [nodes[0]] + nodes[1..];
      assert multiset(nodes) == multiset{nodes[0]} + multiset(nodes[1..]);
      if role in g[nodes[0]].runList then
        assert ([nodes[0]] + rest)[1..] == rest;
        assert multiset([nodes[0]] + rest) == multiset{nodes[0]} + multiset(rest);
        [nodes[0]] + rest
      else
        Graph.SubsequenceSkip(rest, nodes);
        rest
  }

  /** A `create_lb` call: the balancer's name and the member nodes handed over. */
  datatype BalancerRequest = BalancerRequest(name: string, members: seq<Graph.NodeId>)

  // ---------------------------------------------------------------------
  // The machine
  // ---------------------------------------------------------------------

  /** What a wait waits for. */
  datatype WaitFor =
    | AllCreated                            // wait_until_created
    | ParentsComplete(node: Graph.NodeId)   // when_parents_are_complete(node)
    | AllProvisioned                        // wait_until_complete

  datatype Watch = Watch(waitFor: WaitFor, wait: Poll.Wait)

  /**
    The provisioner: its configuration, its state and counters, and what
    it has asked of the outside so far — provisioner rounds created
    (`create` runs), system teardowns (`kill_system`), load-balancer
    requests, `begin_provision` calls in order, and every wait it started.
   */
  datatype Provisioner = Provisioner(
    system: System,
    maxFailures: int,
    timeout: int,
    state: State,
    failures: int,
    nodesCompleted: int,
    creates: nat,
    teardowns: nat,
    balancers: seq<BalancerRequest>,
    begun: seq<Graph.NodeId>,
    watches: seq<Watch>)

  predicate Valid(m: Provisioner)
  {
    && WellFormedSystem(m.system)
    && forall i :: 0 <= i < |m.watches| && m.watches[i].waitFor.ParentsComplete? ==>
         m.watches[i].waitFor.node in m.system.graph
  }

  /** `Souffle::Provisioner::System.new(system, provider, max_failures, timeout)`. */
  function Init(system: System, maxFailures: int, timeout: int): (m: Provisioner)
    requires WellFormedSystem(system)
    ensures Valid(m)
    ensures m.state == Initializing
    ensures m.failures == 0 && m.nodesCompleted == 0
    ensures m.creates == 0 && m.teardowns == 0 && m.watches == [] && m.begun == [] && m.balancers == []
    ensures m.maxFailures == maxFailures && m.timeout == timeout
  {
    Provisioner(system, maxFailures, timeout, Initializing, 0, 0, 0, 0, [], [], [])
  }

  /** The machine with `System.new`'s default bound and timeout. */
  function InitDefault(system: System): (m: Provisioner)
    requires WellFormedSystem(system)
    ensures m.maxFailures == 0 && m.timeout == 5400
    ensures m.state == Initializing && m.failures == 0 && m.nodesCompleted == 0
  {
    Init(system, DefaultMaxFailures, DefaultTimeout)
  }

  /**
    What a nested run of transitions may change: counters only grow, logs
    only get appended to, existing waits stay as they were, and every
    `begin_provision` call it makes is for a node without parents.
   */
  predicate Grows(m: Provisioner, r: Provisioner)
  {
    && r.system == m.system && r.maxFailures == m.maxFailures && r.timeout == m.timeout
    && r.nodesCompleted == m.nodesCompleted
    && r.failures >= m.failures && r.teardowns >= m.teardowns && r.creates >= m.creates
    && |m.watches| <= |r.watches| && r.watches[..|m.watches|] == m.watches
    && |m.balancers| <= |r.balancers| && r.balancers[..|m.balancers|] == m.balancers
    && BeginsOnlyParentless(m, r)
  }

  /** `r` keeps every `begin_provision` call of `m` and adds only calls for nodes without parents. */
  predicate BeginsOnlyParentless(m: Provisioner, r: Provisioner)
  {
    && |m.begun| <= |r.begun| && r.begun[..|m.begun|] == m.begun
    && forall i :: |m.begun| <= i < |r.begun| ==>
         r.begun[i] in m.system.graph && m.system.graph[r.begun[i]].parents == []
  }

  /** Nesting depth of callbacks: only leaving `handling_error` and `load_balancing` fires again. */
  function Rank(s: State): nat
  {
    if s == HandlingError || s == LoadBalancing then 2 else 1
  }

  function Target(e: Event): State
  {
    match e
    case Initialized => Creating
    case Created => LoadBalancing
    case LoadBalanced => Provisioning
    case Provisioned => Complete
    case ErrorOccurred => HandlingError
    case CreationHalted => Failed
    case Reclaimed => Initializing
  }

  /** Fires an event: a silent no-op when undeclared, else the transition and its callback. */
  function Fire(m: Provisioner, e: Event): (r: Provisioner)
    requires Valid(m)
    ensures Valid(r) && Grows(m, r)
    ensures Transition(m.state, e).None? ==> r == m
    decreases Rank(Target(e)), 2
  {
    match Transition(m.state, e)
    case None => m
    case Some(to) =>
      assert to == Target(e) by { assert Declared(e, m.state, to); }
      AfterTransition(m.(state := to), m.state, to)
  }

  /** The `after_transition` callbacks, matched on source and target state in declaration order. */
  function AfterTransition(m: Provisioner, from: State, to: State): (r: Provisioner)
    requires Valid(m)
    ensures Valid(r) && Grows(m, r)
    decreases Rank(to), 1
  {
    if to == HandlingError then ErrorHandler(m)
    else if from == Initializing && to == Creating then Create(m)
    else if from == Creating && to == LoadBalancing then LoadBalance(m)
    else if from == LoadBalancing && to == Provisioning then Provision(m)
    else if to == Initializing then Create(m)
    else m
  }

  /**
    `error_handler`: counts the failure; at the bound halts without a
    teardown, otherwise tears the system down once and reclaims it.
   */
  function ErrorHandler(m: Provisioner): (r: Provisioner)
    requires Valid(m)
    ensures Valid(r) && Grows(m, r)
    decreases 2, 0
  {
    var m1 := m.(failures := m.failures + 1);
    if m1.failures >= m1.maxFailures then Fire(m1, CreationHalted)
    else Fire(m1.(teardowns := m1.teardowns + 1), Reclaimed)
  }

  /** `create`: a fresh round of node provisioners, then `wait_until_created`. */
  function Create(m: Provisioner): (r: Provisioner)
    requires Valid(m)
    ensures Valid(r) && Grows(m, r)
    ensures r.creates == m.creates + 1
    ensures r.watches == m.watches + [Watch(AllCreated, Poll.Start(false))]
  {
    m.(creates := m.creates + 1, watches := m.watches + [Watch(AllCreated, Poll.Start(false))])
  }

  /** The `create_lb` calls for the declared balancers, in declaration order. */
  function BalancerRequests(sys: System, lbs: seq<Balancer>): (r: seq<BalancerRequest>)
    requires WellFormedSystem(sys)
    ensures |r| == |lbs|
    ensures forall i :: 0 <= i < |lbs| ==>
              r[i] == BalancerRequest(lbs[i].name, Members(sys.graph, sys.nodes, lbs[i].role))
  {
    if lbs == [] then []
    else [BalancerRequest(lbs[0].name, Members(sys.graph, sys.nodes, lbs[0].role))] + BalancerRequests(sys, lbs[1..])
  }

  /**
    `load_balance`: one `create_lb` per declared balancer with the nodes
    that carry its role, then `load_balanced`, balancers or not.
   */
  function LoadBalance(m: Provisioner): (r: Provisioner)
    requires Valid(m)
    ensures Valid(r) && Grows(m, r)
    decreases 2, 0
  {
    Fire(m.(balancers := m.balancers + Requests(m.system)), LoadBalanced)
  }

  /** The `create_lb` calls of one `load_balance` run: none when no balancers are declared. */
  function Requests(sys: System): (r: seq<BalancerRequest>)
    requires WellFormedSystem(sys)
    ensures sys.loadBalancers.None? ==> r == []
    ensures sys.loadBalancers.Some? ==> |r| == |sys.loadBalancers.value|
  {
    match sys.loadBalancers
    case None => []
    case Some(lbs) => BalancerRequests(sys, lbs)
  }

  /** The nodes of `nodes`, in order, that have no parents. */
  function Parentless(g: Graph.Graph, nodes: seq<Graph.NodeId>): (r: seq<Graph.NodeId>)
    requires forall i :: 0 <= i < |nodes| ==> nodes[i] in g
    ensures forall n :: n in r <==> n in nodes && g[n].parents == []
    ensures forall i :: 0 <= i < |r| ==> r[i] in g && g[r[i]].parents == []
  {
    if nodes == [] then []
    else (if g[nodes[0]].parents == [] then [nodes[0]] else []) + Parentless(g, nodes[1..])
  }

  /** One parent wait per node, a node without parents counting as satisfied at once. */
  function ParentWatches(g: Graph.Graph, nodes: seq<Graph.NodeId>): (r: seq<Watch>)
    requires forall i :: 0 <= i < |nodes| ==> nodes[i] in g
    ensures |r| == |nodes|
    ensures forall i :: 0 <= i < |nodes| ==>
              r[i] == Watch(ParentsComplete(nodes[i]), Poll.Start(g[nodes[i]].parents == []))
  {
    if nodes == [] then []
    else [Watch(ParentsComplete(nodes[0]), Poll.Start(g[nodes[0]].parents == []))] + ParentWatches(g, nodes[1..])
  }

  /**
    `provision`: for each node `when_parents_are_complete`, which calls
    `begin_provision` at once for a node without parents; then
    `wait_until_complete`, a deadline without a poller.
   */
  function Provision(m: Provisioner): (r: Provisioner)
    requires Valid(m)
    ensures Valid(r) && Grows(m, r)
  {
    var g, nodes := m.system.graph, m.system.nodes;
    var r := m.(
      begun := m.begun + Parentless(g, nodes),
      watches := m.watches + ParentWatches(g, nodes) + [Watch(AllProvisioned, Poll.DeadlineOnly())]);
    assert r.watches[..|m.watches|] == m.watches;
    assert r.begun[..|m.begun|] == m.begun;
    assert forall i :: |m.begun| <= i < |r.begun| ==> r.begun[i] == Parentless(g, nodes)[i - |m.begun|];
    r
  }

  // ---------------------------------------------------------------------
  // Observations and inputs
  // ---------------------------------------------------------------------

  /** The state each node's provisioner reports, by node. */
  type Observed = map<Graph.NodeId, string>

  /** How many of `ids` are observed in `state`. */
  function CountIn(ids: seq<Graph.NodeId>, obs: Observed, state: string): (c: nat)
    requires forall i :: 0 <= i < |ids| ==> ids[i] in obs
    ensures c <= |ids|
  {
    if ids == [] then 0
    else (if obs[ids[0]] == state then 1 else 0) + CountIn(ids[1..], obs, state)
  }

  /** Counting matches up to the length is checking that all match. */
  lemma {:induction false} CountAll(ids: seq<Graph.NodeId>, obs: Observed, state: string)
    requires forall i :: 0 <= i < |ids| ==> ids[i] in obs
    ensures CountIn(ids, obs, state) == |ids| <==> forall i :: 0 <= i < |ids| ==> obs[ids[i]] == state
  {
    if ids != [] {
      CountAll(ids[1..], obs, state);
      assert forall i :: 1 <= i < |ids| ==> ids[i] == ids[1..][i - 1];
    }
  }

  /** What happens to the machine next. */
  datatype Input =
    | Call(event: Event)                       // an event method called from outside
    | NodeDone                                 // node_provisioned, called by a node provisioner
    | TickOf(watch: nat, observed: Observed)   // a poller fires and samples node states
    | DeadlineOf(watch: nat)                   // a deadline timer fires

  /** `node_provisioned`: counts one more node; the call that reaches the node count fires `provisioned`. */
  function NodeProvisioned(m: Provisioner): (r: Provisioner)
    requires Valid(m)
    ensures Valid(r) && Grows(m.(nodesCompleted := m.nodesCompleted + 1), r)
    ensures r.nodesCompleted == m.nodesCompleted + 1
    ensures r.nodesCompleted != |m.system.nodes| ==> r == m.(nodesCompleted := m.nodesCompleted + 1)
    ensures r.nodesCompleted == |m.system.nodes| && m.state == Provisioning ==> r.state == Complete
    ensures r.state != m.state ==> m.state == Provisioning && r.state == Complete
  {
    var m1 := m.(nodesCompleted := m.nodesCompleted + 1);
    if m1.nodesCompleted == |m.system.nodes| then Fire(m1, Provisioned) else m1
  }

  /** Some wait's poller fires and samples the node states. */
  function Tick(m: Provisioner, w: nat, obs: Observed): (r: Provisioner)
    requires Valid(m) && m.system.graph.Keys <= obs.Keys
    ensures Valid(r)
    ensures r.system == m.system && r.nodesCompleted == m.nodesCompleted && |m.watches| <= |r.watches|
    ensures |m.begun| <= |r.begun| && r.begun[..|m.begun|] == m.begun
    ensures forall i :: |m.begun| <= i < |r.begun| ==>
              r.begun[i] in m.system.graph &&
              forall p :: p in m.system.graph[r.begun[i]].parents ==> obs[p] == NodeComplete
  {
    if w >= |m.watches| then m
    else
      var watch := m.watches[w];
      match watch.waitFor
      case AllCreated =>
        var nodes := m.system.nodes;
        var o := Poll.OnTick(watch.wait, CountIn(nodes, obs, ReadyToProvision) == |nodes|);
        var m1 := m.(watches := m.watches[w := Watch(AllCreated, o.wait)]);
        if o.fired then Fire(m1, Created) else m1
      case ParentsComplete(id) =>
        var parents := m.system.graph[id].parents;
        var o := Poll.OnTick(watch.wait, CountIn(parents, obs, NodeComplete) == |parents|);
        var m1 := m.(watches := m.watches[w := Watch(watch.waitFor, o.wait)]);
        if o.fired then
          CountAll(parents, obs, NodeComplete);
          assert forall p :: p in parents ==> obs[p] == NodeComplete;
          m1.(begun := m1.begun + [id])
        else m1
      case AllProvisioned => m
  }

  /** Some wait's deadline fires. */
  function Deadline(m: Provisioner, w: nat): (r: Provisioner)
    requires Valid(m)
    ensures Valid(r) && BeginsOnlyParentless(m, r)
    ensures r.system == m.system && r.nodesCompleted == m.nodesCompleted
  {
    if w >= |m.watches| then m
    else
      var watch := m.watches[w];
      var o := if watch.waitFor.AllProvisioned?
        then Poll.OnFinalCheck(watch.wait, m.nodesCompleted == |m.system.nodes|)
        else Poll.OnDeadline(watch.wait);
      var m1 := m.(watches := m.watches[w := Watch(watch.waitFor, o.wait)]);
      if o.timedOut then Fire(m1, ErrorOccurred) else m1
  }

  predicate Admissible(m: Provisioner, input: Input)
  {
    input.TickOf? ==> m.system.graph.Keys <= input.observed.Keys
  }

  /** One input to the machine. */
  function Step(m: Provisioner, input: Input): (r: Provisioner)
    requires Valid(m) && Admissible(m, input)
    ensures Valid(r) && r.system == m.system
    ensures |m.begun| <= |r.begun| && r.begun[..|m.begun|] == m.begun
    ensures forall i :: |m.begun| <= i < |r.begun| ==>
              r.begun[i] in m.system.graph &&
              (|| m.system.graph[r.begun[i]].parents == []
               || (input.TickOf? &&
                   forall p :: p in m.system.graph[r.begun[i]].parents ==> input.observed[p] == NodeComplete))
  {
    match input
    case Call(e) => Fire(m, e)
    case NodeDone => NodeProvisioned(m)
    case TickOf(w, obs) => Tick(m, w, obs)
    case DeadlineOf(w) => Deadline(m, w)
  }
}

/**
  Properties of the system provisioner: the retry-or-halt decision, the
  completion count, the waits' deadlines, and the order in which nodes
  begin provisioning.
 */
module SystemProvisionerProperties {
  import opened Wrappers
  import Graph
  import Poll
  import opened SystemProvisioner

  /** Firing `initialized` on a new machine runs `create` once and starts the creation wait. */
  lemma InitializedCreates(sys: System, maxFailures: int, timeout: int)
    requires WellFormedSystem(sys)
    ensures var r := Fire(Init(sys, maxFailures, timeout), Initialized);
            && r.state == Creating && r.creates == 1 && r.teardowns == 0 && r.failures == 0
            && r.watches == [Watch(AllCreated, Poll.Start(false))]
  {
    InitializedStep(Init(sys, maxFailures, timeout));
  }

  // Single unfolding steps of the nested firing; each keeps the solver to one level.

  lemma FireTaken(m: Provisioner, e: Event)
    requires Valid(m) && Transition(m.state, e).Some?
    ensures Fire(m, e) == AfterTransition(m.(state := Target(e)), m.state, Target(e))
  {
    assert Declared(e, m.state, Transition(m.state, e).value);
  }

  lemma AfterToInitializing(m: Provisioner, from: State)
    requires Valid(m)
    ensures AfterTransition(m, from, Initializing) == Create(m)
  {
  }

  lemma AfterToHandlingError(m: Provisioner, from: State)
    requires Valid(m)
    ensures AfterTransition(m, from, HandlingError) == ErrorHandler(m)
  {
  }

  lemma AfterToFailed(m: Provisioner, from: State)
    requires Valid(m)
    ensures AfterTransition(m, from, Failed) == m
  {
  }

  lemma ReclaimedCreates(m: Provisioner)
    requires Valid(m)
    ensures Fire(m, Reclaimed) == Create(m.(state := Initializing))
  {
    FireTaken(m, Reclaimed);
    AfterToInitializing(m.(state := Initializing), m.state);
  }

  lemma HaltedFails(m: Provisioner)
    requires Valid(m)
    ensures Fire(m, CreationHalted) == m.(state := Failed)
  {
    FireTaken(m, CreationHalted);
    AfterToFailed(m.(state := Failed), m.state);
  }

  lemma ErrorOccurredHandles(m: Provisioner)
    requires Valid(m)
    ensures Fire(m, ErrorOccurred) == ErrorHandler(m.(state := HandlingError))
  {
    FireTaken(m, ErrorOccurred);
    AfterToHandlingError(m.(state := HandlingError), m.state);
  }

  lemma HandlerHaltsStep(m: Provisioner, m1: Provisioner)
    requires Valid(m) && m.failures + 1 >= m.maxFailures
    requires m1 == m.(failures := m.failures + 1)
    ensures ErrorHandler(m) == Fire(m1, CreationHalted)
  {
  }

  lemma HandlerRetries(m: Provisioner, m2: Provisioner)
    requires Valid(m) && m.failures + 1 < m.maxFailures
    requires m2 == m.(failures := m.failures + 1, teardowns := m.teardowns + 1)
    ensures ErrorHandler(m) == Fire(m2, Reclaimed)
  {
  }

  lemma InitializedStep(m: Provisioner)
    requires Valid(m) && m.state == Initializing
    ensures Fire(m, Initialized) == Create(m.(state := Creating))
  {
    FireTaken(m, Initialized);
  }

  lemma CreatedStep(m: Provisioner)
    requires Valid(m) && m.state == Creating
    ensures Fire(m, Created) == LoadBalance(m.(state := LoadBalancing))
  {
    FireTaken(m, Created);
  }

  lemma LoadBalanceStep(m: Provisioner)
    requires Valid(m)
    ensures LoadBalance(m) == Fire(m.(balancers := m.balancers + Requests(m.system)), LoadBalanced)
  {
  }

  lemma LoadBalancedStep(m: Provisioner)
    requires Valid(m) && m.state == LoadBalancing
    ensures Fire(m, LoadBalanced) == Provision(m.(state := Provisioning))
  {
    FireTaken(m, LoadBalanced);
  }

  lemma ProvisionEffect(m: Provisioner)
    requires Valid(m)
    ensures Provision(m) ==
              m.(begun := m.begun + Parentless(m.system.graph, m.system.nodes),
                 watches := m.watches + ParentWatches(m.system.graph, m.system.nodes)
                            + [Watch(AllProvisioned, Poll.DeadlineOnly())])
  {
  }

  /** At the failure bound, `error_occurred` halts: one more failure counted, nothing else done. */
  lemma ErrorHalts(m: Provisioner)
    requires Valid(m) && m.failures + 1 >= m.maxFailures
    ensures Fire(m, ErrorOccurred) == m.(state := Failed, failures := m.failures + 1)
  {
    ErrorOccurredHandles(m);
    var h := m.(state := HandlingError);
    var m1 := h.(failures := h.failures + 1);
    HandlerHaltsStep(h, m1);
    HaltedFails(m1);
  }

  /**
    Below the failure bound, `error_occurred` counts the failure, tears the
    system down once, and is back in `initializing` with a new round of
    creation and its wait begun.
   */
  lemma ErrorRetries(m: Provisioner)
    requires Valid(m) && m.failures + 1 < m.maxFailures
    ensures Fire(m, ErrorOccurred) ==
              m.(state := Initializing, failures := m.failures + 1, teardowns := m.teardowns + 1,
                 creates := m.creates + 1, watches := m.watches + [Watch(AllCreated, Poll.Start(false))])
  {
    ErrorOccurredHandles(m);
    var h := m.(state := HandlingError);
    var m2 := h.(failures := h.failures + 1, teardowns := h.teardowns + 1);
    HandlerRetries(h, m2);
    ReclaimedCreates(m2);
    var x := m2.(state := Initializing);
    assert x == m.(state := Initializing, failures := m.failures + 1, teardowns := m.teardowns + 1);
    assert Create(x) == x.(creates := x.creates + 1, watches := x.watches + [Watch(AllCreated, Poll.Start(false))]);
  }

  /**
    `error_occurred`, from any state, counts one failure; at the bound the
    machine halts in `failed` with no teardown, below it the system is torn
    down once and the machine is back in `initializing`.
   */
  lemma ErrorOccurredOutcome(m: Provisioner)
    requires Valid(m)
    ensures var r := Fire(m, ErrorOccurred);
            && r.failures == m.failures + 1
            && r.nodesCompleted == m.nodesCompleted && r.begun == m.begun && r.balancers == m.balancers
            && (r.state == Failed <==> m.failures + 1 >= m.maxFailures)
            && (r.state == Initializing <==> m.failures + 1 < m.maxFailures)
            && r.teardowns == m.teardowns + (if m.failures + 1 < m.maxFailures then 1 else 0)
  {
    if m.failures + 1 >= m.maxFailures {
      ErrorHalts(m);
    } else {
      ErrorRetries(m);
    }
  }

  /** With a bound of one or less (the default is zero) the first error halts, and nothing is torn down. */
  lemma SmallBoundNeverRetries(sys: System, maxFailures: int, timeout: int)
    requires WellFormedSystem(sys) && maxFailures <= 1
    ensures var r := Fire(Fire(Init(sys, maxFailures, timeout), Initialized), ErrorOccurred);
            r.state == Failed && r.teardowns == 0 && r.creates == 1 && r.failures == 1
  {
    InitializedCreates(sys, maxFailures, timeout);
    ErrorHalts(Fire(Init(sys, maxFailures, timeout), Initialized));
  }

  /** With a bound of two the first error tears down and recreates, and the second halts. */
  lemma BoundTwoRetriesOnce(sys: System, timeout: int)
    requires WellFormedSystem(sys)
    ensures var m1 := Fire(Init(sys, 2, timeout), Initialized);
            var m2 := Fire(m1, ErrorOccurred);
            var m3 := Fire(m2, ErrorOccurred);
            && m2.state == Initializing && m2.teardowns == 1 && m2.creates == 2
            && m3.state == Failed && m3.teardowns == 1 && m3.creates == 2 && m3.failures == 2
  {
    InitializedCreates(sys, 2, timeout);
    var m1 := Fire(Init(sys, 2, timeout), Initialized);
    ErrorRetries(m1);
    ErrorHalts(Fire(m1, ErrorOccurred));
  }

  /**
    After a retry the machine waits in `initializing`; when the new round's
    poller sees every node ready it fires `created`, which `initializing`
    does not accept. The poller is then spent and the deadline sees the
    flag set, so nothing moves the machine on: a retried system stalls.
   */
  lemma RetryStalls(m: Provisioner, r: Provisioner, obs: Observed)
    requires Valid(m) && m.failures + 1 < m.maxFailures && r == Fire(m, ErrorOccurred)
    requires m.system.graph.Keys <= obs.Keys
    requires forall i :: 0 <= i < |m.system.nodes| ==> obs[m.system.nodes[i]] == ReadyToProvision
    ensures var w := |r.watches| - 1;
            && r.state == Initializing && |r.watches| > 0 && r.watches[w].waitFor == AllCreated
            && var t := Tick(r, w, obs);
               && t.state == Initializing && t.creates == r.creates
               && !t.watches[w].wait.polling && t.watches[w].wait.satisfied
               && Deadline(t, w) == r.(watches := r.watches[w := Watch(AllCreated, Poll.Wait(false, true, false))])
  {
    ErrorRetries(m);
    RejectedRoundStalls(r, |r.watches| - 1, obs);
  }

  /** In `initializing`, a fresh creation wait that sees every node ready spends its poller, then its deadline stays quiet. */
  lemma RejectedRoundStalls(r: Provisioner, w: nat, obs: Observed)
    requires Valid(r) && r.state == Initializing && r.system.graph.Keys <= obs.Keys
    requires w < |r.watches| && r.watches[w] == Watch(AllCreated, Poll.Start(false))
    requires forall i :: 0 <= i < |r.system.nodes| ==> obs[r.system.nodes[i]] == ReadyToProvision
    ensures var t := Tick(r, w, obs);
            && t == r.(watches := r.watches[w := Watch(AllCreated, Poll.Wait(false, true, true))])
            && Deadline(t, w) == r.(watches := r.watches[w := Watch(AllCreated, Poll.Wait(false, true, false))])
  {
    CreatedRejected(r, w, obs);
    var t := Tick(r, w, obs);
    SatisfiedDeadlineQuiet(t, w);
    assert t.watches[w := Watch(AllCreated, Poll.Wait(false, true, false))]
        == r.watches[w := Watch(AllCreated, Poll.Wait(false, true, false))];
  }

  /** In `initializing`, a creation tick that sees every node ready spends its poller and changes nothing else. */
  lemma CreatedRejected(m: Provisioner, w: nat, obs: Observed)
    requires Valid(m) && m.state == Initializing && m.system.graph.Keys <= obs.Keys
    requires w < |m.watches| && m.watches[w] == Watch(AllCreated, Poll.Start(false))
    requires forall i :: 0 <= i < |m.system.nodes| ==> obs[m.system.nodes[i]] == ReadyToProvision
    ensures Tick(m, w, obs) == m.(watches := m.watches[w := Watch(AllCreated, Poll.Wait(false, true, true))])
  {
    CountAll(m.system.nodes, obs, ReadyToProvision);
  }

  /** The deadline of a polled wait whose flag is set raises nothing. */
  lemma SatisfiedDeadlineQuiet(m: Provisioner, w: nat)
    requires Valid(m) && w < |m.watches| && !m.watches[w].waitFor.AllProvisioned? && m.watches[w].wait.satisfied
    ensures Deadline(m, w) == m.(watches := m.watches[w := Watch(m.watches[w].waitFor, m.watches[w].wait.(armed := false))])
  {
  }

  /**
    The deadline of a creation or parent wait that no tick satisfied
    cancels the poller and fires `error_occurred`: one more failure, then
    halt at the bound or tear down and create again below it.
   */
  lemma PendingDeadlineRaises(m: Provisioner, w: nat)
    requires Valid(m) && w < |m.watches| && !m.watches[w].waitFor.AllProvisioned?
    requires m.watches[w].wait.armed && !m.watches[w].wait.satisfied
    ensures var r := Deadline(m, w);
            && r.failures == m.failures + 1
            && (r.state == Failed <==> m.failures + 1 >= m.maxFailures)
            && (r.state == Initializing <==> m.failures + 1 < m.maxFailures)
            && r.teardowns == m.teardowns + (if m.failures + 1 < m.maxFailures then 1 else 0)
            && r.watches[w] == Watch(m.watches[w].waitFor, m.watches[w].wait.(armed := false, polling := false))
  {
    var watch := m.watches[w];
    var m1 := m.(watches := m.watches[w := Watch(watch.waitFor, watch.wait.(armed := false, polling := false))]);
    DeadlineFires(m, w, m1);
    ErrorOccurredOutcome(m1);
  }

  lemma DeadlineFires(m: Provisioner, w: nat, m1: Provisioner)
    requires Valid(m) && w < |m.watches| && !m.watches[w].waitFor.AllProvisioned?
    requires m.watches[w].wait.armed && !m.watches[w].wait.satisfied
    requires m1 == m.(watches := m.watches[w := Watch(m.watches[w].waitFor, m.watches[w].wait.(armed := false, polling := false))])
    ensures Valid(m1) && Deadline(m, w) == Fire(m1, ErrorOccurred)
  {
  }

  /**
    A live parent wait's tick begins the node exactly when every parent is
    observed `complete`, and then cancels the poller and sets the flag;
    otherwise it changes nothing.
   */
  lemma ParentsCompleteTick(m: Provisioner, w: nat, id: Graph.NodeId, obs: Observed)
    requires Valid(m) && m.system.graph.Keys <= obs.Keys
    requires w < |m.watches| && m.watches[w].waitFor == ParentsComplete(id) && m.watches[w].wait.polling
    ensures id in m.system.graph
    ensures var parents := m.system.graph[id].parents;
            var t := Tick(m, w, obs);
            && ((forall i :: 0 <= i < |parents| ==> obs[parents[i]] == NodeComplete) ==>
                  t == m.(begun := m.begun + [id],
                          watches := m.watches[w := Watch(ParentsComplete(id), m.watches[w].wait.(polling := false, satisfied := true))]))
            && (!(forall i :: 0 <= i < |parents| ==> obs[parents[i]] == NodeComplete) ==> t == m)
  {
    assert m.watches[w].waitFor.node in m.system.graph;
    CountAll(m.system.graph[id].parents, obs, NodeComplete);
  }

  /**
    From `creating`, a tick of the pending creation wait moves the machine
    on exactly when every node is observed ready to provision; it then runs
    load balancing and provisioning in one go and ends in `provisioning`.
   */
  lemma CreatedWhenAllReady(m: Provisioner, w: nat, obs: Observed)
    requires Valid(m) && m.state == Creating
    requires m.system.graph.Keys <= obs.Keys
    requires w < |m.watches| && m.watches[w] == Watch(AllCreated, Poll.Start(false))
    ensures var t := Tick(m, w, obs);
            && (t.state == Provisioning <==>
                  forall i :: 0 <= i < |m.system.nodes| ==> obs[m.system.nodes[i]] == ReadyToProvision)
            && (t.state != Provisioning ==> t == m)
            && ((forall i :: 0 <= i < |m.system.nodes| ==> obs[m.system.nodes[i]] == ReadyToProvision) ==>
                  t.watches[w] == Watch(AllCreated, Poll.Wait(false, true, true)))
  {
    CountAll(m.system.nodes, obs, ReadyToProvision);
    var nodes := m.system.nodes;
    var o := Poll.OnTick(m.watches[w].wait, CountIn(nodes, obs, ReadyToProvision) == |nodes|);
    var m1 := m.(watches := m.watches[w := Watch(AllCreated, o.wait)]);
    if o.fired {
      CreatedRunsLoadBalanceAndProvision(m1);
    } else {
      assert m1.watches == m.watches;
    }
  }

  /**
    `created` from `creating` runs `load_balance`, which asks for one load
    balancer per declaration with the nodes carrying its role, and then
    `provision`, which begins every node without parents, starts one parent
    wait per node and the completion deadline.
   */
  lemma CreatedRunsLoadBalanceAndProvision(m: Provisioner)
    requires Valid(m) && m.state == Creating
    ensures var r := Fire(m, Created);
            var g, nodes := m.system.graph, m.system.nodes;
            && r.state == Provisioning
            && r.balancers == m.balancers + Requests(m.system)
            && r.begun == m.begun + Parentless(g, nodes)
            && r.watches == m.watches + ParentWatches(g, nodes) + [Watch(AllProvisioned, Poll.DeadlineOnly())]
            && r.failures == m.failures && r.creates == m.creates && r.teardowns == m.teardowns
  {
    CreatedStep(m);
    var lb := m.(state := LoadBalancing);
    LoadBalanceStep(lb);
    var lb1 := lb.(balancers := lb.balancers + Requests(m.system));
    LoadBalancedStep(lb1);
    ProvisionEffect(lb1.(state := Provisioning));
  }

  /** A tick of a parent wait for a parentless node that is still polling begins the node again. */
  lemma ParentlessTick(m: Provisioner, w: nat, n: Graph.NodeId, obs: Observed)
    requires Valid(m) && m.system.graph.Keys <= obs.Keys
    requires w < |m.watches| && m.watches[w] == Watch(ParentsComplete(n), Poll.Start(true))
    requires n in m.system.graph && m.system.graph[n].parents == []
    ensures Tick(m, w, obs).begun == m.begun + [n]
  {
  }

  /**
    A node without parents begins provisioning twice: once when `provision`
    runs, and again on the first tick of its parent wait, whose count of
    complete parents (none of none) always matches.
   */
  lemma ParentlessBeginsTwice(m: Provisioner, r: Provisioner, i: nat, obs: Observed)
    requires Valid(m) && m.state == LoadBalancing && r == Fire(m, LoadBalanced)
    requires m.system.graph.Keys <= obs.Keys
    requires i < |m.system.nodes| && m.system.graph[m.system.nodes[i]].parents == []
    ensures var n := m.system.nodes[i];
            && r.state == Provisioning
            && n in r.begun[|m.begun|..]
            && Tick(r, |m.watches| + i, obs).begun == r.begun + [n]
  {
    var p := m.(state := Provisioning);
    assert Valid(p);
    LoadBalancedStep(m);
    ProvisionThenTick(p, r, i, obs);
  }

  lemma ProvisionThenTick(p: Provisioner, r: Provisioner, i: nat, obs: Observed)
    requires Valid(p) && r == Provision(p) && p.system.graph.Keys <= obs.Keys
    requires i < |p.system.nodes| && p.system.graph[p.system.nodes[i]].parents == []
    ensures var n := p.system.nodes[i];
            && r.state == p.state
            && n in r.begun[|p.begun|..]
            && Tick(r, |p.watches| + i, obs).begun == r.begun + [n]
  {
    ProvisionParentless(p, r, i);
    ParentlessTick(r, |p.watches| + i, p.system.nodes[i], obs);
  }

  /** `provision` begins a parentless node and starts its parent wait already satisfied. */
  lemma ProvisionParentless(p: Provisioner, r: Provisioner, i: nat)
    requires Valid(p) && i < |p.system.nodes| && p.system.graph[p.system.nodes[i]].parents == []
    requires r == Provision(p)
    ensures && r.state == p.state
            && p.system.nodes[i] in r.begun[|p.begun|..]
            && |p.watches| + i < |r.watches|
            && r.watches[|p.watches| + i] == Watch(ParentsComplete(p.system.nodes[i]), Poll.Start(true))
  {
    ProvisionEffect(p);
    var g, nodes := p.system.graph, p.system.nodes;
    var added := Parentless(g, nodes);
    var waits := ParentWatches(g, nodes);
    assert nodes[i] in added;
    assert r.begun[|p.begun|..] == added by { SuffixOfAppend(p.begun, added); }
    assert r.watches[|p.watches| + i] == waits[i] by {
      InsideOfAppend(p.watches, waits, [Watch(AllProvisioned, Poll.DeadlineOnly())], i);
    }
  }

  lemma SuffixOfAppend<T>(a: seq<T>, b: seq<T>)
    ensures (a + b)[|a|..] == b
  {
  }

  lemma InsideOfAppend<T>(a: seq<T>, b: seq<T>, c: seq<T>, i: nat)
    requires i < |b|
    ensures (a + b + c)[|a| + i] == b[i]
  {
  }

  /** `node_provisioned` applied `j` times. */
  function NodesDone(m: Provisioner, j: nat): (r: Provisioner)
    requires Valid(m)
    ensures Valid(r) && r.system == m.system && r.nodesCompleted == m.nodesCompleted + j
  {
    if j == 0 then m else NodeProvisioned(NodesDone(m, j - 1))
  }

  /**
    From `provisioning`, the machine completes on the call of
    `node_provisioned` that brings the count to the number of nodes, and
    not before.
   */
  lemma {:induction false} CompletesOnLastNode(m: Provisioner, j: nat)
    requires Valid(m) && m.state == Provisioning
    requires 0 <= m.nodesCompleted && m.nodesCompleted + j <= |m.system.nodes|
    ensures NodesDone(m, j).state ==
              if j > 0 && m.nodesCompleted + j == |m.system.nodes| then Complete else Provisioning
  {
    if j > 0 {
      CompletesOnLastNode(m, j - 1);
    }
  }

  /**
    The completion deadline raises exactly when the completed count differs
    from the number of nodes, too low or too high; otherwise it changes
    nothing but itself.
   */
  lemma CompletionDeadline(m: Provisioner, w: nat)
    requires Valid(m) && w < |m.watches|
    requires m.watches[w].waitFor == AllProvisioned && m.watches[w].wait.armed
    ensures var r := Deadline(m, w);
            && (m.nodesCompleted == |m.system.nodes| ==>
                  r == m.(watches := m.watches[w := Watch(AllProvisioned, m.watches[w].wait.(armed := false))]))
            && (m.nodesCompleted != |m.system.nodes| ==> r.failures == m.failures + 1)
  {
    var m1 := m.(watches := m.watches[w := Watch(AllProvisioned, m.watches[w].wait.(armed := false))]);
    if m.nodesCompleted != |m.system.nodes| {
      ErrorOccurredOutcome(m1);
    }
  }

  /**
    A system without nodes never completes: `node_provisioned` never
    brings the count to zero, and the completion deadline finds zero of
    zero done and does not raise either.
   */
  lemma EmptySystemNeverCompletes(m: Provisioner, w: nat)
    requires Valid(m) && m.state == Provisioning && m.system.nodes == [] && m.nodesCompleted == 0
    requires w < |m.watches| && m.watches[w].waitFor == AllProvisioned
    ensures NodeProvisioned(m).state == Provisioning
    ensures Deadline(m, w).state == Provisioning
  {
  }
}
