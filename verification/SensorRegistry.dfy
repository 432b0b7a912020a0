/** The sensor registry of common/smarthouse.go: the nodes that have said hello, their sensors, and the metrics
    registered for them.  Registering a metric twice panics. */
module SensorRegistry {
  import opened Text

  /** A metric's name and its two constant labels. */
  datatype Metric = Metric(name: string, node: string, flow: string)

  const METRIC_NAMES: seq<string> := ["mL_per_min", "last60s_mL", "total_mL", "report_age_s"]

  datatype Node = Node(name: string, sensorSpec: string, sensors: seq<string>)

  datatype Hello = Hello(node: string, sensorSpec: string)

  // ---------- Names and specs ----------

  /** The position of the first dash, or the length. */
  function FirstDash(name: string): (i: nat)
    ensures i <= |name|
    ensures '-' !in name[..i] && (i < |name| <==> '-' in name) && (i < |name| ==> name[i] == '-')
  {
    if name == "" || name[0] == '-' then 0
    else
      var i := FirstDash(name[1..]) + 1;
      assert name[..i] == [name[0]] + name[1..][..i - 1];
      assert name == [name[0]] + name[1..];
      i
  }

  /** nameForNode strips a trailing -suffix. */
  function NameForNode(name: string): string
  {
    if '-' in name then name[..FirstDash(name)] else name
  }

  /** It is the longest prefix without a dash. */
  lemma NameForNodeIs(name: string)
    ensures NameForNode(name) == SplitOn(name, '-')[0] && '-' !in NameForNode(name)
  {
    if '-' in name {
      var i := FirstDash(name);
      assert name == name[..i] + ['-'] + name[i + 1..];
      SplitOnFirst(name[..i], '-', name[i + 1..]);
    } else {
      SplitOnFree(name, '-');
    }
  }

  /** The flows of the well-formed entries among some. */
  function FlowsOf(entries: seq<string>): seq<string>
  {
    if entries == [] then []
    else
      var t := SplitOn(entries[|entries| - 1], ',');
      FlowsOf(entries[..|entries| - 1]) + if |t| < 3 then [] else [t[0]]
  }

  lemma FlowsSnoc(entries: seq<string>, i: nat)
    requires i < |entries|
    ensures var t := SplitOn(entries[i], ',');
            FlowsOf(entries[..i + 1]) == FlowsOf(entries[..i]) + if |t| < 3 then [] else [t[0]]
  {
    assert entries[..i + 1][..i] == entries[..i];
  }

  /** NAME,TYPE,PIN[;NAME,TYPE,PIN]... */
  function ParseSpec(spec: string): seq<string>
  {
    FlowsOf(SplitOn(spec, ';'))
  }

  // ---------- What a spec means ----------

  /** Texts with a separator in between. */
  function Join(parts: seq<string>, sep: char): string
    requires parts != []
  {
    if |parts| == 1 then parts[0] else parts[0] + [sep] + Join(parts[1..], sep)
  }

  ghost predicate AllFree(parts: seq<string>, c: char)
  {
    forall i :: 0 <= i < |parts| ==> c !in parts[i]
  }

  /** Splitting takes a joined text apart again. */
  lemma {:induction false} SplitJoin(parts: seq<string>, sep: char)
    requires parts != [] && AllFree(parts, sep)
    ensures SplitOn(Join(parts, sep), sep) == parts
  {
    if |parts| == 1 {
      SplitOnFree(parts[0], sep);
    } else {
      SplitJoin(parts[1..], sep);
      SplitOnFirst(parts[0], sep, Join(parts[1..], sep));
    }
  }

  lemma {:induction false} JoinFree(parts: seq<string>, sep: char, c: char)
    requires parts != [] && AllFree(parts, c) && c != sep
    ensures c !in Join(parts, sep)
  {
    if |parts| > 1 {
      JoinFree(parts[1..], sep, c);
    }
  }

  /** An entry is any text parts with commas in between: NAME,TYPE,PIN when there are three. */
  ghost predicate IsEntry(parts: seq<string>)
  {
    parts != [] && AllFree(parts, ',') && AllFree(parts, ';')
  }

  ghost predicate AreEntries(entries: seq<seq<string>>)
  {
    forall i :: 0 <= i < |entries| ==> IsEntry(entries[i])
  }

  function Texts(entries: seq<seq<string>>): (texts: seq<string>)
    requires forall i :: 0 <= i < |entries| ==> entries[i] != []
    ensures |texts| == |entries| && forall i :: 0 <= i < |texts| ==> texts[i] == Join(entries[i], ',')
  {
    if entries == [] then [] else Texts(entries[..|entries| - 1]) + [Join(entries[|entries| - 1], ',')]
  }

  /** The names of the entries that have a type and a pin, in order. */
  function Names(entries: seq<seq<string>>): seq<string>
  {
    if entries == [] then []
    else
      var e := entries[|entries| - 1];
      if |e| < 3 then Names(entries[..|entries| - 1]) else Names(entries[..|entries| - 1]) + [e[0]]
  }

  lemma {:induction false} FlowsAreNames(entries: seq<seq<string>>)
    requires AreEntries(entries)
    ensures FlowsOf(Texts(entries)) == Names(entries)
  {
    if entries != [] {
      var n := |entries| - 1;
      FlowsAreNames(entries[..n]);
      assert IsEntry(entries[n]);
      SplitJoin(entries[n], ',');
      assert Texts(entries)[..n] == Texts(entries[..n]);
      assert Names(entries[..n]) + [] == Names(entries[..n]);
    }
  }

  /** A spec is read as it was written: entries joined with semicolons give the names of those with three parts or
      more, in order; entries with fewer commas are passed over. */
  lemma SpecIsRead(entries: seq<seq<string>>)
    requires entries != [] && AreEntries(entries)
    ensures ParseSpec(Join(Texts(entries), ';')) == Names(entries)
  {
    var texts := Texts(entries);
    forall i | 0 <= i < |texts|
      ensures ';' !in texts[i]
    {
      assert IsEntry(entries[i]);
      JoinFree(entries[i], ',', ';');
    }
    SplitJoin(texts, ';');
    FlowsAreNames(entries);
  }

  /** In particular NAME,TYPE,PIN[;NAME,TYPE,PIN]... gives the names. */
  lemma {:induction false} AllNamed(entries: seq<seq<string>>)
    requires forall i :: 0 <= i < |entries| ==> |entries[i]| >= 3
    ensures |Names(entries)| == |entries|
    ensures forall i :: 0 <= i < |entries| ==> Names(entries)[i] == entries[i][0]
  {
    if entries != [] {
      AllNamed(entries[..|entries| - 1]);
    }
  }

  /** Every spec whatever was written so: it is its entries joined, and they their parts. */
  lemma {:induction false} JoinSplit(s: string, sep: char)
    ensures Join(SplitOn(s, sep), sep) == s && AllFree(SplitOn(s, sep), sep)
  {
    if s != "" {
      var init, c := s[..|s| - 1], s[|s| - 1];
      JoinSplit(init, sep);
      JoinSnoc(SplitOn(init, sep), c, sep);
      SplitOnSnoc(init, c, sep);
      assert init + [c] == s;
    }
  }

  lemma JoinSnoc(parts: seq<string>, c: char, sep: char)
    requires parts != [] && AllFree(parts, sep)
    ensures var p := if c == sep then parts + [""] else parts[..|parts| - 1] + [parts[|parts| - 1] + [c]];
            Join(p, sep) == Join(parts, sep) + [c] && AllFree(p, sep)
  {
    var init, last := parts[..|parts| - 1], parts[|parts| - 1];
    assert parts == init + [last];
    JoinLast(init, last, c, sep);
  }

  lemma {:induction false} JoinLast(parts: seq<string>, last: string, c: char, sep: char)
    ensures Join(parts + [last] + [""], sep) == Join(parts + [last], sep) + [sep]
    ensures Join(parts + [last + [c]], sep) == Join(parts + [last], sep) + [c]
  {
    if parts == [] {
      assert parts + [last] == [last] && parts + [last + [c]] == [last + [c]];
      assert parts + [last] + [""] == [last, ""] && [last, ""][1..] == [""];
      assert last + [sep] + "" == last + [sep];
    } else {
      JoinLast(parts[1..], last, c, sep);
      assert (parts + [last])[1..] == parts[1..] + [last];
      assert (parts + [last + [c]])[1..] == parts[1..] + [last + [c]];
      assert (parts + [last] + [""])[1..] == parts[1..] + [last] + [""];
    }
  }

  // ---------- Metrics ----------

  function MetricsOf(node: string, flow: string): set<Metric>
  {
    set n | n in METRIC_NAMES :: Metric(n, NameForNode(node), flow)
  }

  function MetricsOfAll(node: string, flows: seq<string>): set<Metric>
  {
    if flows == [] then {}
    else MetricsOfAll(node, flows[..|flows| - 1]) + MetricsOf(node, flows[|flows| - 1])
  }

  ghost predicate Distinct(flows: seq<string>)
  {
    forall i, j :: 0 <= i < j < |flows| ==> flows[i] != flows[j]
  }

  /** The flows can be set up beside the metrics that are there: none repeats, none is taken. */
  ghost predicate Fits(node: string, flows: seq<string>, taken: set<Metric>)
  {
    Distinct(flows) && MetricsOfAll(node, flows) !! taken
  }

  lemma {:induction false} MetricsOfAllHas(node: string, flows: seq<string>, m: Metric)
    ensures m in MetricsOfAll(node, flows) <==>
            m.name in METRIC_NAMES && m.node == NameForNode(node) && m.flow in flows
  {
    if flows != [] {
      MetricsOfAllHas(node, flows[..|flows| - 1], m);
      assert flows == flows[..|flows| - 1] + [flows[|flows| - 1]];
    }
  }

  // ---------- The registry ----------

  class Registry {
    var nodes: map<string, Node>
    var metrics: set<Metric>

    constructor ()
      ensures nodes == map[] && metrics == {}
    {
      nodes, metrics := map[], {};
    }

    /** prometheus.MustRegister; false is the panic. */
    method MustRegister(m: Metric) returns (ok: bool)
      modifies `metrics
      ensures ok <==> m !in old(metrics)
      ensures metrics == old(metrics) + {m}
    {
      ok := m !in metrics;
      metrics := metrics + {m};
    }

    /** NewFlowSensor, as far as its metrics go. */
    method NewFlowSensor(node: string, flow: string) returns (ok: bool)
      modifies `metrics
      ensures ok <==> MetricsOf(node, flow) !! old(metrics)
      ensures ok ==> metrics == old(metrics) + MetricsOf(node, flow)
    {
      var tag := NameForNode(node);
      FourMetrics(node, flow);
      ok := MustRegister(Metric("mL_per_min", tag, flow));
      if !ok {
        return;
      }
      ok := MustRegister(Metric("last60s_mL", tag, flow));
      if !ok {
        return;
      }
      ok := MustRegister(Metric("total_mL", tag, flow));
      if !ok {
        return;
      }
      ok := MustRegister(Metric("report_age_s", tag, flow));
    }

    method Shutdown(node: string, flow: string)
      modifies `metrics
      ensures metrics == old(metrics) - MetricsOf(node, flow)
    {
      var tag := NameForNode(node);
      FourMetrics(node, flow);
      metrics := metrics - {Metric("mL_per_min", tag, flow)};
      metrics := metrics - {Metric("last60s_mL", tag, flow)};
      metrics := metrics - {Metric("total_mL", tag, flow)};
      metrics := metrics - {Metric("report_age_s", tag, flow)};
    }

    /** The sensors of the node before, which are shut down, and those of its spec, which are set up. */
    method SetupSensors(node: Node) returns (ok: bool, after: Node)
      modifies `metrics
      ensures var rest := old(metrics) - MetricsOfAll(node.name, node.sensors);
              var flows := ParseSpec(node.sensorSpec);
              && (ok <==> Fits(node.name, flows, rest))
              && (ok ==> metrics == rest + MetricsOfAll(node.name, flows)
                         && after == node.(sensors := flows))
    {
      ShutdownAll(node);
      ok, after := SetupAll(node.(sensors := []), SplitOn(node.sensorSpec, ';'));
    }

    method ShutdownAll(node: Node)
      modifies `metrics
      ensures metrics == old(metrics) - MetricsOfAll(node.name, node.sensors)
    {
      for i := 0 to |node.sensors|
        invariant metrics == old(metrics) - MetricsOfAll(node.name, node.sensors[..i])
      {
        assert node.sensors[..i + 1][..i] == node.sensors[..i];
        Shutdown(node.name, node.sensors[i]);
      }
      assert node.sensors[..|node.sensors|] == node.sensors;
    }

    method SetupAll(node: Node, entries: seq<string>) returns (ok: bool, after: Node)
      requires node.sensors == []
      modifies `metrics
      ensures var flows := FlowsOf(entries);
              && (ok <==> Fits(node.name, flows, old(metrics)))
              && (ok ==> metrics == old(metrics) + MetricsOfAll(node.name, flows)
                         && after == node.(sensors := flows))
    {
      after := node;
      ok := true;
      for i := 0 to |entries|
        invariant ok
        invariant after == node.(sensors := FlowsOf(entries[..i]))
        invariant Fits(node.name, after.sensors, old(metrics))
        invariant metrics == old(metrics) + MetricsOfAll(node.name, after.sensors)
      {
        FlowsSnoc(entries, i);
        var t := SplitOn(entries[i], ',');
        if |t| < 3 {
          continue;
        }
        OneMoreFlow(node.name, after.sensors, t[0], old(metrics));
        ok := NewFlowSensor(node.name, t[0]);
        after := after.(sensors := after.sensors + [t[0]]);
        if !ok {
          FlowsGrow(entries, i + 1);
          StillCollides(node.name, after.sensors, FlowsOf(entries), old(metrics));
          return;
        }
      }
      assert entries[..|entries|] == entries;
    }

    method RegisterNode(hello: Hello) returns (ok: bool)
      modifies this
      ensures var flows := ParseSpec(hello.sensorSpec);
              && (ok <==> Fits(hello.node, flows, old(metrics)))
              && (ok ==> metrics == old(metrics) + MetricsOfAll(hello.node, flows)
                         && nodes == old(nodes)[hello.node := Node(hello.node, hello.sensorSpec, flows)])
    {
      var node := Node(hello.node, hello.sensorSpec, []);
      ok, node := SetupSensors(node);
      if ok {
        nodes := nodes[node.name := node];
      }
    }

    method UpdateNode(hello: Hello) returns (ok: bool)
      requires hello.node in nodes && nodes[hello.node].name == hello.node
      modifies this
      ensures var was := old(nodes)[hello.node];
              var flows := ParseSpec(hello.sensorSpec);
              var rest := old(metrics) - MetricsOfAll(hello.node, was.sensors);
              if was.sensorSpec == hello.sensorSpec then ok && nodes == old(nodes) && metrics == old(metrics)
              else
                && (ok <==> Fits(hello.node, flows, rest))
                && (ok ==> metrics == rest + MetricsOfAll(hello.node, flows)
                           && nodes == old(nodes)[hello.node := Node(hello.node, hello.sensorSpec, flows)])
    {
      var node := nodes[hello.node];
      var oldSpec := node.sensorSpec;
      node := node.(sensorSpec := hello.sensorSpec);
      ok := true;
      if oldSpec != hello.sensorSpec {
        ok, node := SetupSensors(node);
      }
      if ok {
        nodes := nodes[hello.node := node];
      }
    }

    /** A hello, from a new node or a known one. */
    method GotHello(hello: Hello) returns (ok: bool)
      requires Mirrors(SpecsOf(nodes), nodes, metrics) && CollisionFree(SpecsOf(nodes))
      modifies this
      ensures ok <==> CollisionFree(SpecsOf(old(nodes))[hello.node := hello.sensorSpec])
      ensures ok ==> SpecsOf(nodes) == SpecsOf(old(nodes))[hello.node := hello.sensorSpec]
                     && Mirrors(SpecsOf(nodes), nodes, metrics)
    {
      ghost var specs := SpecsOf(nodes);
      OthersMetrics(specs, hello.node, metrics);
      if hello.node in nodes {
        assert specs[hello.node] == hello.sensorSpec ==> specs[hello.node := hello.sensorSpec] == specs;
        ok := UpdateNode(hello);
        if specs[hello.node] != hello.sensorSpec {
          HelloOutcome(specs, hello, old(nodes), old(metrics), nodes, metrics, ok);
        }
      } else {
        ok := RegisterNode(hello);
        HelloOutcome(specs, hello, old(nodes), old(metrics), nodes, metrics, ok);
      }
    }

    method GotNext(hellos: seq<Hello>, i: nat) returns (ok: bool)
      requires i < |hellos| && InStep(hellos, i, nodes, metrics)
      modifies this
      ensures ok <==> FreeAt(hellos, i + 1)
      ensures ok ==> InStep(hellos, i + 1, nodes, metrics)
    {
      LatestSnoc(hellos, i);
      ok := GotHello(hellos[i]);
    }

    /** Any sequence of hellos. */
    method GotHellos(hellos: seq<Hello>) returns (ok: bool)
      requires nodes == map[] && metrics == {}
      modifies this
      ensures ok <==> forall k :: 0 <= k <= |hellos| ==> FreeAt(hellos, k)
      ensures ok ==> Mirrors(LatestSpecs(hellos), nodes, metrics)
    {
      ok := true;
      NothingYet(hellos);
      for i := 0 to |hellos|
        invariant ok
        invariant InStep(hellos, i, nodes, metrics)
        invariant forall k :: 0 <= k <= i ==> FreeAt(hellos, k)
      {
        ok := GotNext(hellos, i);
        if !ok {
          return;
        }
      }
      assert hellos[..|hellos|] == hellos;
    }
  }

  lemma FourMetrics(node: string, flow: string)
    ensures MetricsOf(node, flow) == {
              Metric("mL_per_min", NameForNode(node), flow), Metric("last60s_mL", NameForNode(node), flow),
              Metric("total_mL", NameForNode(node), flow), Metric("report_age_s", NameForNode(node), flow)}
  {
    var tag := NameForNode(node);
    var four := {Metric("mL_per_min", tag, flow), Metric("last60s_mL", tag, flow),
                 Metric("total_mL", tag, flow), Metric("report_age_s", tag, flow)};
    forall m
      ensures m in MetricsOf(node, flow) <==> m in four
    {
      assert METRIC_NAMES[0] == "mL_per_min" && METRIC_NAMES[1] == "last60s_mL";
      assert METRIC_NAMES[2] == "total_mL" && METRIC_NAMES[3] == "report_age_s";
    }
  }

  /** Setting up one more flow collides exactly if it repeats one of the node's or meets another node's. */
  lemma OneMoreFlow(node: string, flows: seq<string>, flow: string, rest: set<Metric>)
    requires Fits(node, flows, rest)
    ensures MetricsOf(node, flow) !! (rest + MetricsOfAll(node, flows)) <==> Fits(node, flows + [flow], rest)
    ensures (rest + MetricsOfAll(node, flows)) + MetricsOf(node, flow) == rest + MetricsOfAll(node, flows + [flow])
  {
    assert (flows + [flow])[..|flows|] == flows;
    FourMetrics(node, flow);
    var m := Metric("mL_per_min", NameForNode(node), flow);
    MetricsOfAllHas(node, flows, m);
    assert METRIC_NAMES[0] == "mL_per_min";
    if flow !in flows {
      forall x | x in MetricsOf(node, flow)
        ensures x !in MetricsOfAll(node, flows)
      {
        MetricsOfAllHas(node, flows, x);
      }
    }
  }

  lemma {:induction false} FlowsGrow(entries: seq<string>, i: nat)
    requires i <= |entries|
    ensures FlowsOf(entries[..i]) <= FlowsOf(entries)
    decreases |entries|
  {
    if i < |entries| {
      FlowsGrow(entries[..|entries| - 1], i);
      assert entries[..|entries| - 1][..i] == entries[..i];
    } else {
      assert entries[..i] == entries;
    }
  }

  /** A collision among the first flows is one among all. */
  lemma StillCollides(node: string, some: seq<string>, all: seq<string>, rest: set<Metric>)
    requires some <= all
    requires !Fits(node, some, rest)
    ensures !Fits(node, all, rest)
  {
    if Distinct(some) {
      var m :| m in MetricsOfAll(node, some) && m in rest;
      MetricsOfAllHas(node, some, m);
      MetricsOfAllHas(node, all, m);
    } else {
      var i, j :| 0 <= i < j < |some| && some[i] == some[j];
      assert all[i] == all[j];
    }
  }

  // ---------- What the registry should hold ----------

  /** The latest sensor spec of every node. */
  function LatestSpecs(hellos: seq<Hello>): map<string, string>
  {
    if hellos == [] then map[]
    else LatestSpecs(hellos[..|hellos| - 1])[hellos[|hellos| - 1].node := hellos[|hellos| - 1].sensorSpec]
  }

  function SpecsOf(nodes: map<string, Node>): map<string, string>
  {
    map n | n in nodes :: nodes[n].sensorSpec
  }

  /** The metrics of the sensors in the specs. */
  function AllMetrics(specs: map<string, string>): set<Metric>
  {
    set n, m | n in specs && m in MetricsOfAll(n, ParseSpec(specs[n])) :: m
  }

  /** No two sensors, of one node or of two, have the same node name prefix and flow. */
  ghost predicate CollisionFree(specs: map<string, string>)
  {
    && (forall n :: n in specs ==> Distinct(ParseSpec(specs[n])))
    && (forall a, b, f :: a in specs && b in specs && a != b && NameForNode(a) == NameForNode(b) ==>
          !(f in ParseSpec(specs[a]) && f in ParseSpec(specs[b])))
  }

  /** After the first k hellos the latest specs are free of collisions. */
  ghost predicate FreeAt(hellos: seq<Hello>, k: nat)
    requires k <= |hellos|
  {
    CollisionFree(LatestSpecs(hellos[..k]))
  }

  lemma LatestSnoc(hellos: seq<Hello>, i: nat)
    requires i < |hellos|
    ensures LatestSpecs(hellos[..i + 1]) == LatestSpecs(hellos[..i])[hellos[i].node := hellos[i].sensorSpec]
  {
    assert hellos[..i + 1][..i] == hellos[..i];
  }

  /** The sensors of each node are those of its spec, and the metrics are those of all sensors. */
  ghost predicate Mirrors(specs: map<string, string>, nodes: map<string, Node>, metrics: set<Metric>)
  {
    && nodes.Keys == specs.Keys
    && (forall n :: n in specs ==> nodes[n] == Node(n, specs[n], ParseSpec(specs[n])))
    && metrics == AllMetrics(specs)
  }

  /** After the first k hellos, none of which collided. */
  ghost predicate InStep(hellos: seq<Hello>, k: nat, nodes: map<string, Node>, metrics: set<Metric>)
    requires k <= |hellos|
  {
    SpecsOf(nodes) == LatestSpecs(hellos[..k]) && Mirrors(SpecsOf(nodes), nodes, metrics) && FreeAt(hellos, k)
  }

  lemma NothingYet(hellos: seq<Hello>)
    ensures InStep(hellos, 0, map[], {})
  {
    assert hellos[..0] == [];
    assert AllMetrics(map[]) == {};
  }

  lemma AllMetricsHas(specs: map<string, string>, m: Metric)
    ensures m in AllMetrics(specs) <==>
            m.name in METRIC_NAMES &&
            exists n :: n in specs && NameForNode(n) == m.node && m.flow in ParseSpec(specs[n])
  {
    if m in AllMetrics(specs) {
      var n :| n in specs && m in MetricsOfAll(n, ParseSpec(specs[n]));
      MetricsOfAllHas(n, ParseSpec(specs[n]), m);
    }
    if m.name in METRIC_NAMES {
      forall n | n in specs && NameForNode(n) == m.node && m.flow in ParseSpec(specs[n])
        ensures m in AllMetrics(specs)
      {
        MetricsOfAllHas(n, ParseSpec(specs[n]), m);
      }
    }
  }

  /** Without collisions, shutting a node's sensors down leaves the metrics of the others, all of them. */
  lemma OthersMetrics(specs: map<string, string>, node: string, metrics: set<Metric>)
    requires CollisionFree(specs) && metrics == AllMetrics(specs)
    ensures node in specs ==>
              metrics - MetricsOfAll(node, ParseSpec(specs[node])) == AllMetrics(specs - {node})
    ensures node !in specs ==> metrics == AllMetrics(specs - {node})
  {
    forall m
      ensures m in AllMetrics(specs - {node}) <==>
              m in metrics && (node in specs ==> m !in MetricsOfAll(node, ParseSpec(specs[node])))
    {
      OthersMetric(specs, node, m);
    }
  }

  lemma OthersMetric(specs: map<string, string>, node: string, m: Metric)
    requires CollisionFree(specs)
    ensures m in AllMetrics(specs - {node}) <==>
            m in AllMetrics(specs) && (node in specs ==> m !in MetricsOfAll(node, ParseSpec(specs[node])))
  {
    var others := specs - {node};
    AllMetricsHas(specs, m);
    AllMetricsHas(others, m);
    if node in specs {
      MetricsOfAllHas(node, ParseSpec(specs[node]), m);
    }
    if m in AllMetrics(others) {
      var n :| n in others && NameForNode(n) == m.node && m.flow in ParseSpec(others[n]);
      assert n in specs && n != node && others[n] == specs[n];
    }
    assert forall n :: n in specs && n != node ==> n in others && others[n] == specs[n];
  }

  /** A hello meets no collision exactly if its sensors are distinct and none is another node's. */
  lemma CollisionFreeIff(specs: map<string, string>, hello: Hello)
    requires CollisionFree(specs)
    ensures var flows := ParseSpec(hello.sensorSpec);
            CollisionFree(specs[hello.node := hello.sensorSpec]) <==>
            Fits(hello.node, flows, AllMetrics(specs - {hello.node}))
  {
    var flows := ParseSpec(hello.sensorSpec);
    if CollisionFree(specs[hello.node := hello.sensorSpec]) {
      FreeFits(specs, hello, flows);
    }
    if Fits(hello.node, flows, AllMetrics(specs - {hello.node})) {
      FitsFree(specs, hello, flows);
    }
  }

  lemma FreeFits(specs: map<string, string>, hello: Hello, flows: seq<string>)
    requires CollisionFree(specs[hello.node := hello.sensorSpec]) && flows == ParseSpec(hello.sensorSpec)
    ensures Fits(hello.node, flows, AllMetrics(specs - {hello.node}))
  {
    var after := specs[hello.node := hello.sensorSpec];
    var others := specs - {hello.node};
    assert after[hello.node] == hello.sensorSpec;
    forall m | m in MetricsOfAll(hello.node, flows)
      ensures m !in AllMetrics(others)
    {
      MetricsOfAllHas(hello.node, flows, m);
      AllMetricsHas(others, m);
      assert forall n :: n in others ==> n in after && after[n] == others[n];
    }
  }

  lemma FitsFree(specs: map<string, string>, hello: Hello, flows: seq<string>)
    requires CollisionFree(specs) && flows == ParseSpec(hello.sensorSpec)
    requires Fits(hello.node, flows, AllMetrics(specs - {hello.node}))
    ensures CollisionFree(specs[hello.node := hello.sensorSpec])
  {
    var after := specs[hello.node := hello.sensorSpec];
    var others := specs - {hello.node};
    forall n, f | n in others && NameForNode(n) == NameForNode(hello.node) && f in flows
      ensures f !in ParseSpec(others[n])
    {
      var m := Metric(METRIC_NAMES[0], NameForNode(n), f);
      MetricsOfAllHas(hello.node, flows, m);
      AllMetricsHas(others, m);
    }
    assert forall n :: n in after && n != hello.node ==> n in others && others[n] == after[n] == specs[n];
  }

  /** What comes of setting up the sensors of a hello beside the metrics of all other nodes. */
  lemma HelloOutcome(specs: map<string, string>, hello: Hello, was: map<string, Node>, before: set<Metric>,
                     nodes: map<string, Node>, metrics: set<Metric>, ok: bool)
    requires Mirrors(specs, was, before) && CollisionFree(specs)
    requires ok <==> Fits(hello.node, ParseSpec(hello.sensorSpec), AllMetrics(specs - {hello.node}))
    requires ok ==>
               && nodes == was[hello.node := Node(hello.node, hello.sensorSpec, ParseSpec(hello.sensorSpec))]
               && metrics == AllMetrics(specs - {hello.node}) + MetricsOfAll(hello.node, ParseSpec(hello.sensorSpec))
    ensures ok <==> CollisionFree(specs[hello.node := hello.sensorSpec])
    ensures ok ==> SpecsOf(nodes) == specs[hello.node := hello.sensorSpec] && Mirrors(SpecsOf(nodes), nodes, metrics)
  {
    CollisionFreeIff(specs, hello);
    if ok {
      MirrorsAfter(specs, hello, was, nodes, metrics);
    }
  }

  lemma MirrorsAfter(specs: map<string, string>, hello: Hello, was: map<string, Node>, nodes: map<string, Node>,
                     metrics: set<Metric>)
    requires was.Keys == specs.Keys
    requires forall n :: n in specs ==> was[n] == Node(n, specs[n], ParseSpec(specs[n]))
    requires nodes == was[hello.node := Node(hello.node, hello.sensorSpec, ParseSpec(hello.sensorSpec))]
    requires metrics == AllMetrics(specs - {hello.node}) + MetricsOfAll(hello.node, ParseSpec(hello.sensorSpec))
    ensures SpecsOf(nodes) == specs[hello.node := hello.sensorSpec]
    ensures Mirrors(SpecsOf(nodes), nodes, metrics)
  {
    NodesAfter(specs, hello, was, nodes);
    MetricsAfter(specs, hello);
  }

  lemma NodesAfter(specs: map<string, string>, hello: Hello, was: map<string, Node>, nodes: map<string, Node>)
    requires was.Keys == specs.Keys
    requires forall n :: n in specs ==> was[n] == Node(n, specs[n], ParseSpec(specs[n]))
    requires nodes == was[hello.node := Node(hello.node, hello.sensorSpec, ParseSpec(hello.sensorSpec))]
    ensures SpecsOf(nodes) == specs[hello.node := hello.sensorSpec]
    ensures nodes.Keys == SpecsOf(nodes).Keys
    ensures forall n :: n in nodes ==> nodes[n] == Node(n, nodes[n].sensorSpec, ParseSpec(nodes[n].sensorSpec))
  {
  }

  lemma MetricsAfter(specs: map<string, string>, hello: Hello)
    ensures AllMetrics(specs[hello.node := hello.sensorSpec]) ==
            AllMetrics(specs - {hello.node}) + MetricsOfAll(hello.node, ParseSpec(hello.sensorSpec))
  {
    forall m
      ensures m in AllMetrics(specs[hello.node := hello.sensorSpec]) <==>
              m in AllMetrics(specs - {hello.node}) + MetricsOfAll(hello.node, ParseSpec(hello.sensorSpec))
    {
      MetricAfter(specs, hello, m);
    }
  }

  lemma MetricAfter(specs: map<string, string>, hello: Hello, m: Metric)
    ensures m in AllMetrics(specs[hello.node := hello.sensorSpec]) <==>
            m in AllMetrics(specs - {hello.node}) || m in MetricsOfAll(hello.node, ParseSpec(hello.sensorSpec))
  {
    var after, others := specs[hello.node := hello.sensorSpec], specs - {hello.node};
    AllMetricsHas(after, m);
    AllMetricsHas(others, m);
    MetricsOfAllHas(hello.node, ParseSpec(hello.sensorSpec), m);
    assert hello.node in after && after[hello.node] == hello.sensorSpec;
    if m in AllMetrics(after) {
      var n :| n in after && NameForNode(n) == m.node && m.flow in ParseSpec(after[n]);
      assert n != hello.node ==> n in others && others[n] == after[n];
    }
    assert forall n :: n in others ==> n in after && others[n] == after[n];
  }
}
