# Souffle orchestration core in Dafny

A model of the orchestration core of Souffle, a Ruby tool that provisions a
"system" of interdependent machines. The model covers three parts:

- the **node dependency graph** (`Souffle::Node`): `depends_on?`,
  identity-deduplicated `add_child`, the recursive `weight`, the ordered
  `try_opt` fallback, `fqdn` and `to_hash`;
- the **system provisioning state machine**
  (`Souffle::Provisioner::System`):
  - its state/event table and `after_transition` callbacks;
  - the failure counter with its retry-or-halt decision;
  - the completed-node counter;
  - the three poll-and-deadline waits;
  - load-balancer member selection;
- the **provider base** (`Souffle::Provider`): plugin listing and
  case-insensitive lookup, `name`, the must-override methods, the chef-solo
  payload of `generate_chef_json`, and `ssh_key`.

Everything is immutable data with pure functions:

| file | module | what it holds |
|---|---|---|
| `wrappers.dfy` | `Wrappers` | `Option` and `Result` |
| `ruby_string.dfy` | `RubyString` | the Ruby string operations used: ASCII `downcase`, `Array#join` and `String#split` on a literal separator |
| `ruby_hash.dfy` | `RubyHash` | Ruby's insertion-ordered `Hash` with symbol and string keys, plus `[]`, `[]=` and `merge!` |
| `graph.dfy` | `Graph` | `node.rb`; nodes are identities in a map |
| `poll.dfy` | `Poll` | the poll-and-deadline primitive on an abstract clock |
| `system_provisioner.dfy` | `SystemProvisioner` | `provisioner/system.rb` |
| `system_provisioner.dfy` | `SystemProvisionerProperties` | scenario and outcome lemmas |
| `provider.dfy` | `Provider` | `provider.rb` |

EventMachine timers become explicit inputs to the machine. A `TickOf` input
is a periodic timer firing; it carries the per-node provisioner states it
samples, because the node provisioner (`lib/souffle/provisioner/node.rb`) is
not part of this model. A `DeadlineOf` input is a one-shot timer firing.
Calls the machine makes to collaborators are recorded in the machine's state
rather than performed:

- `kill_system` is a teardown counter;
- each `create` round is a creation counter;
- `create_lb` calls are logged with their members;
- `begin_provision` calls are logged in order.

In several places the code does something other than what a reader of the
system would expect. The model follows the code:

- **Undeclared transitions.** An event fired from a state with no declared
  transition is a silent no-op (state_machine's non-bang event). It does not
  raise an invalid-transition error.
- **A bound of one.** With `max_failures = 1` the first error halts in
  `failed` with no teardown, because the counter is incremented before the
  `>=` test (`SystemProvisionerProperties.SmallBoundNeverRetries`). A bound
  of one might be expected to allow one teardown-and-restart cycle first.
- **Zero nodes.** A system with zero nodes never reaches `complete`:
  - `node_provisioned` is never called;
  - the completion deadline finds zero of zero done, so it does not raise
    either (`SystemProvisionerProperties.EmptySystemNeverCompletes`);
  - leaving `creating` also needs a poller tick, where an empty system might
    be expected to need no timer at all.
- **Retries stall.** A retry does not restart the sequence. `reclaimed` re-runs
  `create` but leaves the machine in `initializing`. The new poller then fires
  `created`, which `initializing` does not accept, so the machine stalls
  (`SystemProvisionerProperties.RetryStalls`).
- **No resets.** The failure and completed-node counters are never reset
  between rounds.
- **Overshoot counts as failure.** The completion deadline tests the
  completed count for equality with the node count, not for reaching it.
  It also raises when the count is too high, which can happen if a node
  reports completion more than once. A parentless node is begun twice
  (`SystemProvisionerProperties.ParentlessBeginsTwice`), so it may report twice
  (`SystemProvisionerProperties.CompletionDeadline`).

## Model

| member | source | states |
|---|---|---|
| Graph.NewNode | lib/souffle/node.rb:15-24 | a new node has no name, empty dependencies, run-list, parents and children, the given parent multiplier, and options holding only an empty `:attributes` hash |
| Graph.NewDefaultNode | lib/souffle/node.rb:15 | `Node.new` without an argument is the bare node with parent multiplier 5 |
| Graph.Matching | lib/souffle/node.rb:43-46 | the filtered list holds exactly the dependencies on the run-list, each as often as in the dependencies, in dependency order |
| Graph.DependsOn | lib/souffle/node.rb:42-48 | the flag is true iff some dependency is on the other node's run-list, iff the list is non-empty; the list is the dependencies that are on the other run-list, with multiplicities, in dependency order |
| Graph.DependsOnDocExample | lib/souffle/node.rb:28-37 | the documented example gives `[true, ["role[dns_server]"]]` |
| Graph.Eql | lib/souffle/node.rb:76-78 | `eql?` holds iff the two nodes' `to_hash` descriptions agree on dependencies and run_list |
| Graph.DependsOnRespectsEql | lib/souffle/node.rb:76-78 | `eql?` nodes give the same `depends_on?` answers, on either side |
| Graph.AddChild | lib/souffle/node.rb:55-64 | a child without `dependencies` or `run_list` raises InvalidChild and changes nothing; a present child (by identity) changes nothing; otherwise the child is appended to the children and the parent to the child's parents, and nothing else changes |
| Graph.AddChildIdempotent | lib/souffle/node.rb:60-63 | adding the same child twice equals adding it once |
| Graph.AddChildByIdentity | lib/souffle/node.rb:60 | two distinct but `eql?` nodes are both added as children |
| Graph.AddChildPreservesWellFormed | lib/souffle/node.rb:55-64 | edges stay inside the graph, recorded on both ends, with no duplicates |
| Graph.Weight | lib/souffle/node.rb:83-85 | a parentless node weighs 1; with non-negative multipliers every weight is at least 1 |
| Graph.ParentWeights | lib/souffle/node.rb:84 | the summed parent terms are non-negative when multipliers are |
| Graph.WeightOneParent | lib/souffle/node.rb:84 | with one parent the weight is `1 + parent weight * multiplier` |
| Graph.WeightRankIndependent | lib/souffle/node.rb:83-85 | the weight depends only on the graph, not on the acyclicity witness |
| Graph.ChildOutweighsParent | lib/souffle/node.rb:83-85 | with multipliers of at least 1, a child weighs strictly more than each parent |
| Graph.TryOpt | lib/souffle/node.rb:92-100 | a present option is returned even if nil; an absent one falls back to the system's `try_opt` (or the config without a system); a raising fallback gives nil |
| Graph.TryOptOwnOptionWins | lib/souffle/node.rb:94-96 | after setting an option, `try_opt` returns it, unless the fallback raises |
| Graph.TryOptOtherKey | lib/souffle/node.rb:92-100 | setting one option leaves `try_opt` of every other key unchanged |
| Graph.Fqdn | lib/souffle/node.rb:133-135 | with no name, tag or domain the result is empty |
| Graph.FqdnSegments | lib/souffle/node.rb:133-135 | cutting the fqdn at its dots gives back name, tag and domain, those present, in order |
| Graph.FqdnAllPresent | lib/souffle/node.rb:119-135 | with all three present the fqdn is `name.tag.domain` |
| Graph.ToHash | lib/souffle/node.rb:140-148 | keys are name, options, provisioner, dependencies and run_list, in that order; `:name` holds the name or nil, `:options` the options hash, `:provisioner` the value standing for the node's provisioner, and the last two the node's lists |
| Graph.ToHashIgnoresEdges | lib/souffle/node.rb:140-148 | edges, multiplier and system membership do not show in the description |
| RubyHash.Get | lib/souffle/node.rb:94 | a key is found iff it is among the keys, and the value found is stored under that key |
| RubyHash.Store | lib/souffle/provider.rb:87 | the key maps to the new value and every other key is unchanged; an existing key keeps its place and a new key is appended |
| RubyHash.Merge | lib/souffle/provider.rb:88 | keys of the merged hash win and every other key keeps its value; the keys are the old ones followed by the new ones in the merged hash's order |
| Poll.OnTick | lib/souffle/provisioner/system.rb:102-112 | a tick acts iff the poller is live and the predicate holds; it then cancels the poller and sets the flag; otherwise nothing changes |
| Poll.OnDeadline | lib/souffle/provisioner/system.rb:114-120 | the deadline raises iff it is pending and the flag is unset; it cancels the poller only when it raises |
| Poll.OnFinalCheck | lib/souffle/provisioner/system.rb:238-245 | a deadline without a poller raises iff the predicate fails at that moment |
| Poll.DormantStaysQuiet | lib/souffle/provisioner/system.rb:107-119 | a wait with no poller and no deadline that can raise never acts or raises again |
| Poll.PendingWait | lib/souffle/provisioner/system.rb:213-235 | a wait started with the predicate false acts at most once, iff a ready tick precedes the deadline, and raises at most once, iff the deadline comes first; never both |
| Poll.SatisfiedWait | lib/souffle/provisioner/system.rb:94-112 | a wait whose flag is already set never raises, and acts once iff some ready tick arrives |
| SystemProvisioner.Transition | lib/souffle/provisioner/system.rb:19-45 | a transition exists iff the table declares it, and it goes to the declared state |
| SystemProvisioner.Init | lib/souffle/provisioner/system.rb:60-69 | a new machine is in `initializing` with zero failures and zero completed nodes, and has made no call |
| SystemProvisioner.InitDefault | lib/souffle/provisioner/system.rb:60 | the defaults are `max_failures` 0 and `timeout` 5400 |
| SystemProvisioner.Members | lib/souffle/provisioner/system.rb:130-135 | a balancer's members are exactly the nodes whose run-list holds its role, in node order, with multiplicities |
| SystemProvisioner.BalancerRequests | lib/souffle/provisioner/system.rb:128-138 | one `create_lb` per declared balancer, in order, each with that balancer's members |
| SystemProvisioner.Fire | lib/souffle/provisioner/system.rb:11-45 | an undeclared event changes nothing; otherwise counters only grow, logs and waits are only appended to, and the only nodes begun are parentless |
| SystemProvisioner.AfterTransition | lib/souffle/provisioner/system.rb:12-17 | the callbacks only grow counters, logs and waits, and begin only parentless nodes |
| SystemProvisioner.ErrorHandler | lib/souffle/provisioner/system.rb:185-201 | handling an error only grows counters, logs and waits, and begins only parentless nodes |
| SystemProvisioner.Create | lib/souffle/provisioner/system.rb:72-79 | one more round of node provisioners, and a new creation wait that starts unsatisfied |
| SystemProvisioner.LoadBalance | lib/souffle/provisioner/system.rb:124-156 | load balancing only grows counters, logs and waits, and begins only parentless nodes |
| SystemProvisioner.Parentless | lib/souffle/provisioner/system.rb:94-98 | exactly the parentless nodes begin when `provision` runs |
| SystemProvisioner.ParentWatches | lib/souffle/provisioner/system.rb:94-121 | one parent wait per node in order, already satisfied exactly when the node has no parents |
| SystemProvisioner.Provision | lib/souffle/provisioner/system.rb:84-91 | `provision` keeps earlier logs and waits, and begins only parentless nodes |
| SystemProvisioner.CountAll | lib/souffle/provisioner/system.rb:103-107 | the count of nodes in a state equals their number iff every one is in that state |
| SystemProvisioner.NodeProvisioned | lib/souffle/provisioner/system.rb:174-177 | the counter grows by one; the state changes only from `provisioning` to `complete`, and does so on the call that reaches the node count |
| SystemProvisioner.Tick | lib/souffle/provisioner/system.rb:102-112 | a node begins on a tick only if every one of its parents is observed `complete`; earlier calls are kept (what a tick does is stated by `CreatedWhenAllReady` and `ParentsCompleteTick`) |
| SystemProvisioner.Deadline | lib/souffle/provisioner/system.rb:114-120 | a deadline begins no node with parents, and keeps the system and completed count (what a deadline does is stated by `SatisfiedDeadlineQuiet`, `PendingDeadlineRaises` and `CompletionDeadline`) |
| SystemProvisioner.Step | lib/souffle/provisioner/system.rb:94-121 | whatever the input, a node with parents begins only on a tick that observes all its parents `complete` |
| SystemProvisionerProperties.InitializedCreates | lib/souffle/provisioner/system.rb:72-79 | `initialized` on a new machine runs `create` once and starts one creation wait |
| SystemProvisionerProperties.ErrorHalts | lib/souffle/provisioner/system.rb:186-193 | at the bound, `error_occurred` ends in `failed` with one more failure and no teardown or other effect |
| SystemProvisionerProperties.ErrorRetries | lib/souffle/provisioner/system.rb:194-200 | below the bound, it counts the failure, tears down exactly once, and is back in `initializing` with a new creation round and wait |
| SystemProvisionerProperties.ErrorOccurredOutcome | lib/souffle/provisioner/system.rb:185-201 | from any state it ends in `failed` iff the bound is reached, and in `initializing` with one teardown otherwise |
| SystemProvisionerProperties.SmallBoundNeverRetries | lib/souffle/provisioner/system.rb:185-193 | with `max_failures` at most 1, the first error halts with no teardown |
| SystemProvisionerProperties.BoundTwoRetriesOnce | lib/souffle/provisioner/system.rb:185-201 | with `max_failures` 2: one teardown and recreate, then `failed` on the second error |
| SystemProvisionerProperties.RetryStalls | lib/souffle/provisioner/system.rb:16-25 | after a retry, the new round's `created` is rejected in `initializing`; its poller is spent, and its deadline only disarms itself, leaving the machine otherwise exactly as the retry left it |
| SystemProvisionerProperties.CreatedWhenAllReady | lib/souffle/provisioner/system.rb:213-226 | from `creating`, a creation tick reaches `provisioning` iff every node is observed `ready_to_provision`, and then the creation wait is satisfied with its poller cancelled; otherwise nothing changes |
| SystemProvisionerProperties.CreatedRunsLoadBalanceAndProvision | lib/souffle/provisioner/system.rb:14-15 | `created` runs `load_balance` then `provision`: the declared balancers' requests are logged (none without declarations), the parentless nodes begin, the waits start, and it ends in `provisioning` |
| SystemProvisionerProperties.ParentlessBeginsTwice | lib/souffle/provisioner/system.rb:94-112 | a parentless node begins when `provision` runs and again on its wait's first tick |
| SystemProvisionerProperties.CompletesOnLastNode | lib/souffle/provisioner/system.rb:174-177 | from `provisioning`, the machine is `complete` exactly after the call that brings the count to the node count |
| SystemProvisionerProperties.ParentsCompleteTick | lib/souffle/provisioner/system.rb:102-112 | a live parent wait's tick begins the node iff every parent is observed `complete`, and then cancels the poller and sets the flag; otherwise nothing changes |
| SystemProvisionerProperties.SatisfiedDeadlineQuiet | lib/souffle/provisioner/system.rb:114-120 | the deadline of a parent wait (and likewise of the creation wait of `wait_until_created`) that a tick satisfied only disarms itself: no failure, no state change, nothing else touched |
| SystemProvisionerProperties.PendingDeadlineRaises | lib/souffle/provisioner/system.rb:114-120 | the deadline of an unsatisfied parent wait (and likewise of the creation wait of `wait_until_created`) cancels its poller and fires `error_occurred`: one more failure, then `failed` at the bound or one teardown and `initializing` below it |
| SystemProvisionerProperties.CompletionDeadline | lib/souffle/provisioner/system.rb:238-245 | the completion deadline counts a failure iff the completed count differs from the node count, too low or too high; otherwise it only disarms itself and the machine is otherwise unchanged |
| SystemProvisionerProperties.EmptySystemNeverCompletes | lib/souffle/provisioner/system.rb:174-177 | with no nodes, neither `node_provisioned` nor the completion deadline moves the machine out of `provisioning` |
| RubyString.Downcase | lib/souffle/provider.rb:11 | same length, each character lower-cased as ASCII `downcase` does |
| RubyString.Split | lib/souffle/provider.rb:43 | an empty string splits into nothing; the last piece is never empty, and the pieces joined with the separator are a prefix of the string |
| RubyString.SplitOfJoin | lib/souffle/provider.rb:43 | splitting a join of non-empty pieces free of separator characters gives back the pieces |
| Provider.Plugins | lib/souffle/provider.rb:10-12 | one lower-cased name per registered constant, in order |
| Provider.Plugin | lib/souffle/provider.rb:19-24 | lookup succeeds iff some constant lower-cases to the name lower-cased; it returns the first such constant, and otherwise raises |
| Provider.PluginIgnoresCase | lib/souffle/provider.rb:20 | names that lower-case alike find the same plugin |
| Provider.ListedPluginsResolve | lib/souffle/provider.rb:10-21 | every listed name resolves to a constant with that lower-cased name, and to its own constant when no earlier one clashes |
| Provider.Name | lib/souffle/provider.rb:42-44 | the name, when there is one, is non-empty |
| Provider.NameOfConstantPath | lib/souffle/provider.rb:43 | for a `::`-path of non-empty, colon-free segments, the name is the last segment |
| Provider.MustOverrideError | lib/souffle/provider.rb:58 | the message starts with the class name, followed by `: you must override ` and the operation |
| Provider.CreateSystem | lib/souffle/provider.rb:57-60 | always raises the must-override error for `create_system` |
| Provider.CreateNode | lib/souffle/provider.rb:66-69 | always raises the must-override error for `create_node` |
| Provider.CreateRaid | lib/souffle/provider.rb:75-78 | always raises the must-override error for `create_raid` |
| Provider.MustOverrideNamesTheOperation | lib/souffle/provider.rb:57-78 | for class names without spaces, as every Ruby constant path is, equal errors mean the same class and the same operation |
| Provider.SshKey | lib/souffle/provider.rb:178-180 | the path is the key directory, a `/`, then the key name |
| Provider.SshKeyInjective | lib/souffle/provider.rb:178-180 | within one directory, different key names give different paths |
| Provider.PayloadDomain | lib/souffle/provider.rb:87 | the node's `try_opt(:domain)` when truthy, else `"souffle"` |
| Provider.GenerateChefJson | lib/souffle/provider.rb:85-91 | raises iff `:attributes` is not a hash; otherwise `:domain` comes first, `:run_list` is the node's run-list, every other attribute appears with its value, an attribute `:domain` overrides the default, and no other key appears |
| Provider.ChefJsonKeyOrder | lib/souffle/provider.rb:86-89 | the keys are `:domain`, then the other attribute keys in attribute order, then `:run_list` unless an attribute already placed it |
| Provider.ChefJsonOverrides | lib/souffle/provider.rb:88-89 | an attribute `:domain` wins over the default, and the node's run-list wins over an attribute `:run_list` |

## Left out

- `time_used` and the `around_transition` timing: these accumulate floating
  wall-clock time.
- The actual timeout and interval lengths. Waits are ordered sequences of
  tick and deadline events, so timeouts are recorded but never compared.
- `system_provisioned`: running `chef-client` over ssh on client-mode nodes
  is a foreign call.
- The `exit 0` / `exit 1` calls, for the same reason. The `complete` and
  `failed` states are the terminal markers.
- Logging and `system_tag`: they have no effect on state.
- `kill_system`: recorded as a teardown count, because the provider's `kill`
  is a foreign call.
- The per-node provisioners that `create` builds and initializes: recorded as
  a creation count. `lib/souffle/provisioner/node.rb` is not part of this
  model, and its states enter only as tick observations.
- `System#rebalance_nodes` and `System#try_opt`: the system class is not part
  of this model. Nodes keep their given order, and the `:load_balancers`
  value is an input.
- `load_balance`'s collaborator calls: the load-balancer plugin lookup,
  `create_lb`'s vips and tag, `get_lb_ip`, the ERB/JSON merge of `attrs_erb`
  into node attributes, `setup_lb_dns` and `set_ssl_termination`. Only
  `create_lb`'s name and member list are recorded.
- `each_child`, `provider` and `log_prefix` on nodes: trivial delegations
  that only read other fields.
- The provider's `initialize`, `boot`, `wait_for_boot`, `ssh_block`,
  `ssh_key_exists?`, `create_ssh_dir_if_missing`, `rsync_file` and the
  cookbook/role packaging helpers: these are ssh, filesystem and shell work.
- `ssh_key_path` (`File.join` of the config file's directory, `ssh` and the
  lower-cased name): it depends on configuration. `Provider.SshKey` takes
  that directory as a parameter.
- The pretty-printed JSON text itself: the payload is modelled as the
  ordered hash handed to the writer. A symbol key and a string key of the
  same name stay distinct here, whereas the JSON text would print both.
- `Souffle::Node::RunList` and its items: run-lists are sequences of strings,
  and their `to_hash` is the string list.
- Graph.AddChild: a non-node object that answers both `dependencies` and
  `run_list` would be added by Ruby. Graphs here hold only nodes, so the
  model reports `NotANode` for it and leaves that case unmodelled.
- Graph.Weight: requires a rank witnessing that parents form no cycle,
  because Ruby's recursion does not terminate on a cycle.
- Graph.Fqdn: a tag or domain holding a nested hash is rendered as the empty
  string rather than Ruby's `Hash#to_s`.
- Provider.Plugin: `downcase` is modelled for ASCII letters only, so lookup
  is case-insensitive for ASCII names only.
- Provider.Name: only string class names are modelled. An anonymous class,
  whose name is nil, would raise in Ruby.
- Provider.NameOfConstantPath: agreement with `split('::').last` is proved
  for well-formed constant paths only.
