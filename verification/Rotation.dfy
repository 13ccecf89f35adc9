/** internal/rotator/services/node_rotation_service.go: which nodes are rotated, and in which
    order. Loads and usages are reals, compared with fixed thresholds. */
module Rotation {
  import opened Text

  datatype Health = Health(isHealthy: bool, load: real, memory: real, disk: real, responseMillis: int)

  datatype Info = Info(id: string, reasons: seq<string>, priority: int, health: Health, peerCount: nat)

  /** An active node as examined: `health` is `None` when the check failed, `peers` when the
      count did. */
  datatype Node = Node(id: string, health: Option<Health>, peers: Option<nat>)

  // ---- triggers ----

  predicate IsCritical(h: Health) {
    !h.isHealthy || h.load > 0.9 || h.memory > 0.95 || h.disk > 0.95
  }

  predicate IsTriggered(h: Health) {
    IsCritical(h) || h.load > 0.8 || h.memory > 0.85 || h.disk > 0.85 || h.responseMillis > 5000
  }

  /** Two thresholds on one measurement. */
  function Level(value: real, critical: real, elevated: real, criticalText: string, elevatedText: string): seq<string> {
    if value > critical then [criticalText] else if value > elevated then [elevatedText] else []
  }

  /** The reasons that hold, in the order they are examined. */
  function Reasons(h: Health): seq<string> {
    (if !h.isHealthy then ["unhealthy"] else [])
    + Level(h.load, 0.9, 0.8, "high system load", "elevated system load")
    + Level(h.memory, 0.95, 0.85, "critical memory usage", "high memory usage")
    + Level(h.disk, 0.95, 0.85, "critical disk usage", "high disk usage")
    + (if h.responseMillis > 5000 then ["slow response time"] else [])
  }

  /** A reason is given exactly when there is a trigger. */
  lemma ReasonsAreTriggers(h: Health)
    ensures Reasons(h) == [] <==> !IsTriggered(h)
  {
  }

  lemma LevelHas(value: real, critical: real, elevated: real, criticalText: string, elevatedText: string, text: string)
    requires elevated <= critical
    ensures text in Level(value, critical, elevated, criticalText, elevatedText) <==>
              (text == criticalText && value > critical) || (text == elevatedText && elevated < value <= critical)
  {
  }

  /** What is given as a reason, and exactly when. */
  lemma ReasonsMean(h: Health, text: string)
    ensures text in Reasons(h) <==>
              || (text == "unhealthy" && !h.isHealthy)
              || (text == "high system load" && h.load > 0.9)
              || (text == "elevated system load" && 0.8 < h.load <= 0.9)
              || (text == "critical memory usage" && h.memory > 0.95)
              || (text == "high memory usage" && 0.85 < h.memory <= 0.95)
              || (text == "critical disk usage" && h.disk > 0.95)
              || (text == "high disk usage" && 0.85 < h.disk <= 0.95)
              || (text == "slow response time" && h.responseMillis > 5000)
  {
    hide Level;
    LevelHas(h.load, 0.9, 0.8, "high system load", "elevated system load", text);
    LevelHas(h.memory, 0.95, 0.85, "critical memory usage", "high memory usage", text);
    LevelHas(h.disk, 0.95, 0.85, "critical disk usage", "high disk usage", text);
  }

  /** One measurement examined: a reason more, and the priority not above its own. */
  method Examine(reasons: seq<string>, priority: int, value: real, critical: real, elevated: real,
                 criticalText: string, elevatedText: string)
    returns (reasons': seq<string>, priority': int)
    requires priority >= 1 && critical >= elevated
    ensures reasons' == reasons + Level(value, critical, elevated, criticalText, elevatedText)
    ensures priority' == if value > critical then 1 else if value > elevated && priority > 2 then 2 else priority
  {
    reasons', priority' := reasons, priority;
    if value > critical {
      reasons' := reasons + [criticalText];
      if priority > 1 {
        priority' := 1;
      }
    } else if value > elevated {
      reasons' := reasons + [elevatedText];
      if priority > 2 {
        priority' := 2;
      }
    }
  }

  /** `analyzeNodeForRotation`: a node is listed exactly when it has a trigger, with first
      priority exactly when one is critical, and with the reasons that hold. */
  method AnalyzeNode(id: string, h: Health, peerCount: nat) returns (r: Option<Info>)
    ensures r.Some? <==> !h.isHealthy || h.load > 0.8 || h.memory > 0.85 || h.disk > 0.85 || h.responseMillis > 5000
    ensures r.Some? <==> IsTriggered(h)
    ensures r.Some? ==> r.value.id == id && r.value.health == h && r.value.peerCount == peerCount
    ensures r.Some? ==> r.value.priority in {1, 2}
    ensures r.Some? ==> (r.value.priority == 1 <==> !h.isHealthy || h.load > 0.9 || h.memory > 0.95 || h.disk > 0.95)
    ensures r.Some? ==> (r.value.priority == 1 <==> IsCritical(h))
    ensures r.Some? ==> r.value.reasons == Reasons(h)
  {
    hide Level;
    var reasons: seq<string> := [];
    var priority := 4;
    if !h.isHealthy {
      reasons := reasons + ["unhealthy"];
      priority := 1;
    }
    reasons, priority := Examine(reasons, priority, h.load, 0.9, 0.8, "high system load", "elevated system load");
    reasons, priority := Examine(reasons, priority, h.memory, 0.95, 0.85, "critical memory usage", "high memory usage");
    reasons, priority := Examine(reasons, priority, h.disk, 0.95, 0.85, "critical disk usage", "high disk usage");
    if h.responseMillis > 5000 {
      reasons := reasons + ["slow response time"];
      if priority > 2 {
        priority := 2;
      }
    }
    assert reasons == Reasons(h);
    ReasonsAreTriggers(h);
    if |reasons| == 0 {
      return None;
    }
    r := Some(Info(id, reasons, priority, h, peerCount));
  }

  // ---- the order ----

  predicate SortedByPriority(s: seq<Info>) {
    forall j, k :: 0 <= j < k < |s| ==> s[j].priority <= s[k].priority
  }

  lemma SwapKeepsElements(s: seq<Info>, i: nat, j: nat)
    requires i < |s| && j < |s|
    ensures multiset(s[i := s[j]][j := s[i]]) == multiset(s)
  {
  }

  /** Positions before i hold the smallest priorities in order. */
  predicate SortedUpTo(s: seq<Info>, i: nat) {
    forall j, k :: 0 <= j < i && j < k < |s| ==> s[j].priority <= s[k].priority
  }

  lemma SwapKeepsSorted(s: seq<Info>, i: nat, j: nat)
    requires i < j < |s| && SortedUpTo(s, i)
    ensures SortedUpTo(s[i := s[j]][j := s[i]], i)
  {
  }

  /** The exchange sort, in place. */
  method SortByPriority(a: array<Info>)
    modifies a
    ensures SortedByPriority(a[..])
    ensures multiset(a[..]) == multiset(old(a[..]))
  {
    var i := 0;
    while i < a.Length - 1
      invariant 0 <= i <= a.Length
      invariant SortedUpTo(a[..], i)
      invariant multiset(a[..]) == multiset(old(a[..]))
    {
      var j := i + 1;
      while j < a.Length
        invariant i < j <= a.Length
        invariant SortedUpTo(a[..], i)
        invariant forall k :: i < k < j ==> a[i].priority <= a[k].priority
        invariant multiset(a[..]) == multiset(old(a[..]))
      {
        hide SortedUpTo;
        if a[i].priority > a[j].priority {
          ghost var before := a[..];
          a[i], a[j] := a[j], a[i];
          assert a[..] == before[i := before[j]][j := before[i]];
          SwapKeepsElements(before, i, j);
          SwapKeepsSorted(before, i, j);
        }
        j := j + 1;
      }
      assert SortedUpTo(a[..], i + 1);
      i := i + 1;
    }
  }

  // ---- the decision ----

  predicate IsListed(n: Node) {
    n.health.Some? && IsTriggered(n.health.value)
  }

  /** The nodes to list, in the order examined. */
  function Listed(nodes: seq<Node>): seq<Node> {
    if nodes == [] then []
    else (if IsListed(nodes[0]) then [nodes[0]] else []) + Listed(nodes[1..])
  }

  /** An entry describes a node. */
  predicate Describes(i: Info, n: Node) {
    && IsListed(n) && i.id == n.id && i.health == n.health.value
    && i.peerCount == (if n.peers.Some? then n.peers.value else 0)
    && i.priority in {1, 2} && (i.priority == 1 <==> IsCritical(i.health))
    && i.reasons == Reasons(i.health)
  }

  predicate DescribesAll(infos: seq<Info>, nodes: seq<Node>) {
    |infos| == |nodes| && forall k :: 0 <= k < |infos| ==> Describes(infos[k], nodes[k])
  }

  lemma Regroup(x: seq<Node>, y: seq<Node>, z: seq<Node>)
    ensures x + (y + z) == (x + y) + z
  {
  }

  lemma {:induction false} ListedAppend(a: seq<Node>, b: seq<Node>)
    ensures Listed(a + b) == Listed(a) + Listed(b)
  {
    hide IsListed;
    if a == [] {
      assert a + b == b;
    } else {
      assert (a + b)[1..] == a[1..] + b;
      ListedAppend(a[1..], b);
      var first := if IsListed(a[0]) then [a[0]] else [];
      Regroup(first, Listed(a[1..]), Listed(b));
    }
  }

  /** `makeRotationDecision`: one entry for every examined node with a trigger and no other,
      with the critical ones first, for any number of nodes. */
  method MakeRotationDecision(nodes: seq<Node>) returns (decision: seq<Info>, ghost found: seq<Info>)
    ensures DescribesAll(found, Listed(nodes))
    ensures multiset(decision) == multiset(found)
    ensures SortedByPriority(decision)
    ensures forall k :: 0 <= k < |decision| ==>
              decision[k].priority in {1, 2} && (decision[k].priority == 1 <==> IsCritical(decision[k].health))
  {
    hide IsTriggered;
    hide IsCritical;
    hide Reasons;
    var nodesToRotate: seq<Info> := [];
    for n := 0 to |nodes|
      invariant DescribesAll(nodesToRotate, Listed(nodes[..n]))
    {
      assert nodes[..n + 1] == nodes[..n] + [nodes[n]];
      ListedAppend(nodes[..n], [nodes[n]]);
      if nodes[n].health.Some? {
        var peerCount := if nodes[n].peers.Some? then nodes[n].peers.value else 0;
        var info := AnalyzeNode(nodes[n].id, nodes[n].health.value, peerCount);
        if info.Some? {
          nodesToRotate := nodesToRotate + [info.value];
        }
      }
    }
    assert nodes[..|nodes|] == nodes;
    found := nodesToRotate;
    var a := new Info[|nodesToRotate|](k requires 0 <= k < |nodesToRotate| => nodesToRotate[k]);
    assert a[..] == found;
    SortByPriority(a);
    decision := a[..];
    forall k | 0 <= k < |decision|
      ensures decision[k].priority in {1, 2} && (decision[k].priority == 1 <==> IsCritical(decision[k].health))
    {
      assert decision[k] in multiset(decision);
      assert decision[k] in found;
    }
  }
}
