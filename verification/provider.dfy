/**
  The provider base (`Souffle::Provider` and `Souffle::Provider::Base`):
  plugin listing and case-insensitive lookup by name, the provider's short
  name, the methods a concrete provider must override, the chef-solo
  payload for a node, and the ssh key path.
 */
module Provider {
  import opened Wrappers
  import opened RubyHash
  import RubyString
  import Graph

  /** The exceptions the base raises. */
  datatype ProviderError =
    | MustOverride(message: string)   // Souffle::Exceptions::Provider
    | NoSuchPlugin(name: string)      // `const_get(nil)` when no constant matches
    | AttributesNotAHash              // `merge!` handed something other than a hash

  // ---------------------------------------------------------------------
  // Plugins
  // ---------------------------------------------------------------------

  /** `Souffle::Provider.plugins`: each registered constant's name, lower-cased, in order. */
  function Plugins(constants: seq<string>): (r: seq<string>)
    ensures |r| == |constants|
    ensures forall i :: 0 <= i < |r| ==> r[i] == RubyString.Downcase(constants[i])
  {
    seq(|constants|, i requires 0 <= i < |constants| => RubyString.Downcase(constants[i]))
  }

  /** `constants[i]` is the first constant whose lower-cased name is `want`. */
  predicate FirstMatch(constants: seq<string>, want: string, i: nat)
  {
    && i < |constants| && RubyString.Downcase(constants[i]) == want
    && forall j :: 0 <= j < i ==> RubyString.Downcase(constants[j]) != want
  }

  /** The position of the first constant whose lower-cased name is `want`, or `|constants|`. */
  function PluginIndex(constants: seq<string>, want: string): (i: nat)
    ensures i <= |constants|
    ensures i < |constants| ==> FirstMatch(constants, want, i)
    ensures i == |constants| ==> forall j :: 0 <= j < |constants| ==> RubyString.Downcase(constants[j]) != want
  {
    if constants == [] then 0
    else if RubyString.Downcase(constants[0]) == want then 0
    else 1 + PluginIndex(constants[1..], want)
  }

  /**
    `Souffle::Provider.plugin(name)`: the first registered constant whose
    lower-cased name equals `name` lower-cased. With no match Ruby resolves
    a nil constant name and raises, which the method's rescue clause does
    not catch.
   */
  function Plugin(constants: seq<string>, name: string): (r: Result<string, ProviderError>)
    ensures r.Success? <==> exists i :: 0 <= i < |constants| && RubyString.Downcase(constants[i]) == RubyString.Downcase(name)
    ensures r.Success? ==> exists i: nat :: FirstMatch(constants, RubyString.Downcase(name), i) && r.value == constants[i]
    ensures r.Failure? ==> r.error == NoSuchPlugin(name)
  {
    var i := PluginIndex(constants, RubyString.Downcase(name));
    if i < |constants| then Success(constants[i]) else Failure(NoSuchPlugin(name))
  }

  /** Lookup ignores case: names that lower-case alike find the same plugin. */
  lemma PluginIgnoresCase(constants: seq<string>, a: string, b: string)
    requires RubyString.Downcase(a) == RubyString.Downcase(b)
    ensures Plugin(constants, a).Success? <==> Plugin(constants, b).Success?
    ensures Plugin(constants, a).Success? ==> Plugin(constants, a).value == Plugin(constants, b).value
  {
  }

  /**
    Every name `plugins` lists resolves, to the first constant with that
    lower-cased name; with distinct lower-cased names, to the very constant
    it was listed for.
   */
  lemma {:induction false} ListedPluginsResolve(constants: seq<string>, i: nat)
    requires i < |constants|
    ensures Plugin(constants, Plugins(constants)[i]).Success?
    ensures RubyString.Downcase(Plugin(constants, Plugins(constants)[i]).value) == Plugins(constants)[i]
    ensures (forall j :: 0 <= j < i ==> RubyString.Downcase(constants[j]) != RubyString.Downcase(constants[i])) ==>
              Plugin(constants, Plugins(constants)[i]) == Success(constants[i])
  {
    var want := RubyString.Downcase(constants[i]);
    RubyString.DowncaseIdempotent(constants[i]);
    assert Plugins(constants)[i] == want;
    var k := PluginIndex(constants, want);
    assert k <= i;
    assert Plugin(constants, want) == Success(constants[k]);
  }

  // ---------------------------------------------------------------------
  // Name, the methods to override, ssh keys
  // ---------------------------------------------------------------------

  /** `Base#name`: the last `::` segment of the class name; nil when there is none. */
  function Name(className: string): (r: Option<string>)
    ensures r.Some? ==> |r.value| > 0
  {
    var segments := RubyString.Split(className, "::");
    if segments == [] then None else Some(segments[|segments| - 1])
  }

  /** For a constant path of non-empty segments without colons, the name is the last segment. */
  lemma NameOfConstantPath(segments: seq<string>)
    requires |segments| > 0
    requires forall i :: 0 <= i < |segments| ==> |segments[i]| > 0
    requires RubyString.FreeOf(segments, "::")
    ensures Name(RubyString.Join(segments, "::")) == Some(segments[|segments| - 1])
  {
    RubyString.SplitOfJoin(segments, "::");
  }

  /** The message every unimplemented operation of the base raises, naming the class and the operation. */
  function MustOverrideError(className: string, operation: string): (e: ProviderError)
    ensures e.MustOverride? && |e.message| > |className|
    ensures e.message[..|className|] == className
    ensures e.message[|className|..] == ": you must override " + operation
  {
    MustOverride(className + ": you must override " + operation)
  }

  /** `create_system` on the base: always raises. */
  function CreateSystem(className: string, system: Graph.Graph, tag: Option<string>): (r: Result<(), ProviderError>)
    ensures r.Failure? && r.error == MustOverrideError(className, "create_system")
  {
    Failure(MustOverrideError(className, "create_system"))
  }

  /** `create_node` on the base: always raises. */
  function CreateNode(className: string, node: Graph.Node, tag: Option<string>): (r: Result<(), ProviderError>)
    ensures r.Failure? && r.error == MustOverrideError(className, "create_node")
  {
    Failure(MustOverrideError(className, "create_node"))
  }

  /** `create_raid` on the base: always raises. */
  function CreateRaid(className: string): (r: Result<(), ProviderError>)
    ensures r.Failure? && r.error == MustOverrideError(className, "create_raid")
  {
    Failure(MustOverrideError(className, "create_raid"))
  }

  /** The position of the first space in `s`, or `|s|`. */
  function FirstSpace(s: string): (i: nat)
    ensures i <= |s|
    ensures forall j :: 0 <= j < i ==> s[j] != ' '
    ensures i < |s| ==> s[i] == ' '
  {
    if s == [] || s[0] == ' ' then 0 else 1 + FirstSpace(s[1..])
  }

  /** A space-free prefix moves the first space along by its length. */
  lemma {:induction false} FirstSpaceAfter(c: string, rest: string)
    requires ' ' !in c
    ensures FirstSpace(c + rest) == |c| + FirstSpace(rest)
  {
    if c != [] {
      assert (c + rest)[1..] == c[1..] + rest;
      FirstSpaceAfter(c[1..], rest);
    } else {
      assert c + rest == rest;
    }
  }

  /** The first space of the text after the class name is the one after its colon. */
  lemma SeparatorSpace(op: string)
    ensures FirstSpace(": you must override " + op) == 1
  {
    var t := ": you must override " + op;
    assert t[0] == ':';
    assert t[1..][0] == ' ';
    assert FirstSpace(t[1..]) == 0;
  }

  /**
    Ruby constant paths such as `Souffle::Provider::Base` hold no spaces;
    for such class names the message tells the class and the operation
    apart: different pairs never raise the same error.
   */
  lemma MustOverrideNamesTheOperation(c1: string, op1: string, c2: string, op2: string)
    requires MustOverrideError(c1, op1) == MustOverrideError(c2, op2)
    requires ' ' !in c1 && ' ' !in c2
    ensures c1 == c2 && op1 == op2
  {
    var suffix := ": you must override ";
    var m := MustOverrideError(c1, op1).message;
    assert m == c1 + (suffix + op1) == c2 + (suffix + op2);
    SeparatorSpace(op1);
    SeparatorSpace(op2);
    FirstSpaceAfter(c1, suffix + op1);
    FirstSpaceAfter(c2, suffix + op2);
    assert c1 == m[..|c1|] == c2;
    assert m[|c1| + |suffix|..] == op1;
    assert m[|c2| + |suffix|..] == op2;
  }

  /** `ssh_key(k)`: the key's file under the provider's ssh key directory. */
  function SshKey(keyPath: string, keyName: string): (r: string)
    ensures |r| == |keyPath| + 1 + |keyName|
    ensures r[..|keyPath|] == keyPath && r[|keyPath|] == '/' && r[|keyPath| + 1..] == keyName
  {
    keyPath + "/" + keyName
  }

  /** Under one directory, different key names give different paths. */
  lemma SshKeyInjective(keyPath: string, a: string, b: string)
    requires SshKey(keyPath, a) == SshKey(keyPath, b)
    ensures a == b
  {
    assert a == SshKey(keyPath, a)[|keyPath| + 1..];
  }

  // ---------------------------------------------------------------------
  // The chef-solo payload
  // ---------------------------------------------------------------------

  const DomainKey: Key := Sym("domain")
  const RunListKey: Key := Sym("run_list")
  const AttributesKey: Key := Sym("attributes")

  /** The domain used when the node has none. */
  const DefaultDomain: Value := Text("souffle")

  /** A hash held under `:attributes`, like every Ruby hash, holds each key once. */
  predicate AttributesWellFormed(n: Graph.Node)
  {
    match Get(n.options, AttributesKey)
    case Some(Nested(a)) => UniqueKeys(a)
    case _ => true
  }

  /** `node.try_opt(:domain) || "souffle"`. */
  function PayloadDomain(n: Graph.Node, env: Graph.Env): (d: Value)
    ensures Truthy(d)
    ensures Truthy(Graph.TryOpt(n, DomainKey, env)) ==> d == Graph.TryOpt(n, DomainKey, env)
    ensures !Truthy(Graph.TryOpt(n, DomainKey, env)) ==> d == DefaultDomain
  {
    var d := Graph.TryOpt(n, DomainKey, env);
    if Truthy(d) then d else DefaultDomain
  }

  /**
    `generate_chef_json(node)`, as the ordered hash handed to the JSON
    writer: the domain first, then the node's attributes merged over it,
    then the node's run-list written last. Merging raises unless the
    node's `:attributes` option is a hash.
   */
  function GenerateChefJson(n: Graph.Node, env: Graph.Env): (r: Result<Hash, ProviderError>)
    requires AttributesWellFormed(n)
    ensures r.Failure? <==> !(Get(n.options, AttributesKey).Some? && Get(n.options, AttributesKey).value.Nested?)
    ensures r.Failure? ==> r.error == AttributesNotAHash
    ensures r.Success? ==> UniqueKeys(r.value) && |r.value| > 0 && r.value[0].key == DomainKey
    ensures r.Success? ==> Get(r.value, RunListKey) == Some(Tags(n.runList))
    ensures r.Success? ==>
              var attrs := Get(n.options, AttributesKey).value.entries;
              && (forall k :: k != RunListKey && k in Keys(attrs) ==> Get(r.value, k) == Get(attrs, k))
              && (DomainKey !in Keys(attrs) ==> Get(r.value, DomainKey) == Some(PayloadDomain(n, env)))
              && (forall k :: k != RunListKey && k != DomainKey && k !in Keys(attrs) ==> Get(r.value, k) == None)
  {
    match Get(n.options, AttributesKey)
    case Some(Nested(attrs)) =>
      var h0 := Store([], DomainKey, PayloadDomain(n, env));
      var h1 := Merge(h0, attrs);
      assert Keys(h0) == [DomainKey];
      var h2 := Store(h1, RunListKey, Tags(n.runList));
      assert Keys(h2)[0] == Keys(h1)[0] == DomainKey;
      Success(h2)
    case _ => Failure(AttributesNotAHash)
  }

  /**
    The payload's keys in order: `:domain`, then the attribute keys other
    than `:domain` in the attributes' order, then `:run_list` unless an
    attribute already placed it.
   */
  lemma ChefJsonKeyOrder(n: Graph.Node, env: Graph.Env, attrs: Hash)
    requires Get(n.options, AttributesKey) == Some(Nested(attrs)) && UniqueKeys(attrs)
    ensures GenerateChefJson(n, env).Success?
    ensures Keys(GenerateChefJson(n, env).value) ==
              [DomainKey] + NewKeys(Keys(attrs), [DomainKey])
              + (if RunListKey in Keys(attrs) then [] else [RunListKey])
  {
    var h0 := Store([], DomainKey, PayloadDomain(n, env));
    var h1 := Merge(h0, attrs);
    ChefJsonSteps(n, env, attrs, h0, h1);
    MergedKeys(attrs, h0, h1);
    StoreRunListKeys(h1, Tags(n.runList));
  }

  lemma StoreRunListKeys(h: Hash, v: Value)
    requires UniqueKeys(h)
    ensures Keys(Store(h, RunListKey, v)) == Keys(h) + (if RunListKey in Keys(h) then [] else [RunListKey])
  {
    if RunListKey in Keys(h) {
      assert Keys(h) + [] == Keys(h);
    }
  }

  /** The payload is the run-list stored into the attributes merged over the domain. */
  lemma ChefJsonSteps(n: Graph.Node, env: Graph.Env, attrs: Hash, h0: Hash, h1: Hash)
    requires Get(n.options, AttributesKey) == Some(Nested(attrs)) && UniqueKeys(attrs)
    requires h0 == Store([], DomainKey, PayloadDomain(n, env)) && h1 == Merge(h0, attrs)
    ensures GenerateChefJson(n, env) == Success(Store(h1, RunListKey, Tags(n.runList)))
  {
  }

  lemma MergedKeys(attrs: Hash, h0: Hash, h1: Hash)
    requires UniqueKeys(attrs) && UniqueKeys(h0) && Keys(h0) == [DomainKey] && h1 == Merge(h0, attrs)
    ensures Keys(h1) == [DomainKey] + NewKeys(Keys(attrs), [DomainKey])
    ensures RunListKey in Keys(h1) <==> RunListKey in Keys(attrs)
  {
    NewKeysMembers(Keys(attrs), [DomainKey], RunListKey);
  }

  /** A node's run-list always wins over an attribute of the same name, and its own attributes over the default domain. */
  lemma ChefJsonOverrides(n: Graph.Node, env: Graph.Env, attrs: Hash, d: Value, rl: Value)
    requires Get(n.options, AttributesKey) == Some(Nested(attrs)) && UniqueKeys(attrs)
    requires Get(attrs, DomainKey) == Some(d) && Get(attrs, RunListKey) == Some(rl)
    ensures Get(GenerateChefJson(n, env).value, DomainKey) == Some(d)
    ensures Get(GenerateChefJson(n, env).value, RunListKey) == Some(Tags(n.runList))
  {
  }
}
