/** The exporter and the parser as the loops they are, proved against `Export` and `ParseDiagram`. */
module BlueprintLoops {
  import opened Basics
  import opened Utf16
  import opened TextEnds
  import opened Json
  import opened BlueprintText
  import opened BlueprintCarrier
  import opened BlueprintRoundTrip

  // ---------------------------------------------------------------------------------------------
  // The index

  ghost predicate IndexesPins(pins: seq<Pin>, m: map<Text, Pin>) {
    && (forall j | 0 <= j < |pins| :: PinId(pins[j]) in m && m[PinId(pins[j])] == pins[j])
    && forall id | id in m :: PinId(m[id]) == id && m[id] in pins
  }

  ghost predicate IndexesNodes(nodes: seq<Node>, m: map<Text, Node>) {
    && (forall i | 0 <= i < |nodes| :: Path(nodes[i]) in m && m[Path(nodes[i])] == nodes[i])
    && forall p | p in m :: Path(m[p]) == p && m[p] in nodes
  }

  /** The pins of one node by id; ids used twice are dropped and counted as issues. */
  method IndexPins(pins: seq<Pin>) returns (byId: map<Text, Pin>, issues: nat)
    ensures issues == 0 <==> UniquePins(pins)
    ensures issues == 0 ==> IndexesPins(pins, byId)
  {
    byId, issues := map[], 0;
    var duplicates: set<Text> := {};
    for j := 0 to |pins|
      invariant issues == 0 ==> duplicates == {} && UniquePins(pins[..j]) && IndexesPins(pins[..j], byId)
      invariant issues > 0 ==> !UniquePins(pins)
    {
      var id := PinId(pins[j]);
      if id in duplicates {
      } else if id in byId {
        if issues == 0 {
          var k :| 0 <= k < j && pins[..j][k] == byId[id];
          assert PinId(pins[k]) == PinId(pins[j]);
        }
        duplicates := duplicates + {id};
        byId := byId - {id};
        issues := issues + 1;
      } else {
        byId := byId[id := pins[j]];
      }
      TakeSnoc(pins, j);
    }
    assert pins[..|pins|] == pins;
  }

  ghost predicate PinsIndexed(nodes: seq<Node>, pins: map<Text, map<Text, Pin>>) {
    forall i | 0 <= i < |nodes| ::
      UniquePins(nodes[i].pins) && Path(nodes[i]) in pins && IndexesPins(nodes[i].pins, pins[Path(nodes[i])])
  }

  /** What the index knows of the nodes read so far, as long as it has no issue. */
  ghost predicate Indexed(nodes: seq<Node>, m: map<Text, Node>, pins: map<Text, map<Text, Pin>>) {
    UniquePaths(nodes) && IndexesNodes(nodes, m) && PinsIndexed(nodes, pins)
  }

  lemma NewNode(nodes: seq<Node>, m: map<Text, Node>, pins: map<Text, map<Text, Pin>>, node: Node, byId: map<Text, Pin>)
    requires Indexed(nodes, m, pins) && Path(node) !in m && UniquePins(node.pins) && IndexesPins(node.pins, byId)
    ensures Indexed(nodes + [node], m[Path(node) := node], pins[Path(node) := byId])
  {
    var all, n := nodes + [node], m[Path(node) := node];
    forall i | 0 <= i < |all| ensures Path(all[i]) in n && n[Path(all[i])] == all[i] {
      if i < |nodes| { assert all[i] == nodes[i]; }
    }
    forall p | p in n ensures Path(n[p]) == p && n[p] in all {
      if p != Path(node) { assert m[p] in nodes; }
      assert node == all[|nodes|];
    }
  }

  lemma OldPath(g: Graph, i: nat, m: map<Text, Node>, pins: map<Text, map<Text, Pin>>)
    requires i < |g.nodes| && Indexed(g.nodes[..i], m, pins) && Path(g.nodes[i]) in m
    ensures !Unambiguous(g)
  {
    var k :| 0 <= k < i && g.nodes[..i][k] == m[Path(g.nodes[i])];
    assert Path(g.nodes[k]) == Path(g.nodes[i]);
  }

  lemma AllIndexed(g: Graph, m: map<Text, Node>, pins: map<Text, map<Text, Pin>>)
    requires Indexed(g.nodes, m, pins)
    ensures Unambiguous(g)
  {
  }

  /** `indexBlueprintGraph`, counting its issues. */
  method IndexGraph(g: Graph)
    returns (nodes: map<Text, Node>, pins: map<Text, map<Text, Pin>>, issues: nat)
    ensures issues == 0 <==> Unambiguous(g)
    ensures issues == 0 ==> Indexed(g.nodes, nodes, pins)
  {
    nodes, pins, issues := map[], map[], 0;
    var duplicates: set<Text> := {};
    for i := 0 to |g.nodes|
      invariant issues == 0 ==> duplicates == {} && Indexed(g.nodes[..i], nodes, pins)
      invariant issues > 0 ==> !Unambiguous(g)
    {
      var node := g.nodes[i];
      var path := Path(node);
      TakeSnoc(g.nodes, i);
      if path in duplicates {
      } else if path in nodes {
        if issues == 0 { OldPath(g, i, nodes, pins); }
        duplicates := duplicates + {path};
        nodes := nodes - {path};
        pins := pins - {path};
        issues := issues + 1;
      } else {
        var byId, more := IndexPins(node.pins);
        if issues == 0 && more == 0 { NewNode(g.nodes[..i], nodes, pins, node, byId); }
        nodes := nodes[path := node];
        pins := pins[path := byId];
        issues := issues + more;
      }
    }
    assert g.nodes[..|g.nodes|] == g.nodes;
    if issues == 0 { AllIndexed(g, nodes, pins); }
  }

  /** `findBlueprintPin` and the node alias it goes with. */
  lemma LookupEndpoint(g: Graph, nodes: map<Text, Node>, pins: map<Text, map<Text, Pin>>, path: Text, id: Text)
    requires Indexed(g.nodes, nodes, pins)
    ensures path in nodes <==> FindNode(g.nodes, path).Some?
    ensures path in nodes ==> FindNode(g.nodes, path) == Some(nodes[path]) && path in pins
    ensures path in nodes ==> (id in pins[path] <==> FindPin(nodes[path].pins, id).Some?)
  {
    var found := FindNode(g.nodes, path);
    if found.Some? {
      var i :| 0 <= i < |g.nodes| && g.nodes[i] == found.value;
      assert nodes[path] == g.nodes[i];
      LookupPin(found.value.pins, pins[path], id);
    }
  }

  lemma LookupPin(pins: seq<Pin>, m: map<Text, Pin>, id: Text)
    requires IndexesPins(pins, m)
    ensures id in m <==> FindPin(pins, id).Some?
  {
    var found := FindPin(pins, id);
    if found.Some? {
      var j :| 0 <= j < |pins| && pins[j] == found.value;
      assert PinId(pins[j]) in m;
    }
    if id in m {
      var j :| 0 <= j < |pins| && pins[j] == m[id];
    }
  }

  // ---------------------------------------------------------------------------------------------
  // Export

  ghost predicate TakenBy(aliases: set<Text>, pins: seq<Pin>, j: nat, hash: Text -> Text)
    requires j <= |pins|
  {
    forall a :: a in aliases <==> exists k :: 0 <= k < j && a == PinAlias(PinId(pins[k]), hash)
  }

  lemma PinAliasTaken(aliases: set<Text>, pins: seq<Pin>, j: nat, hash: Text -> Text)
    requires j < |pins| && TakenBy(aliases, pins, j, hash) && DistinctPinAliases(pins[..j], hash)
    ensures var a := PinAlias(PinId(pins[j]), hash);
            if a in aliases then !DistinctPinAliases(pins, hash)
            else TakenBy(aliases + {a}, pins, j + 1, hash) && DistinctPinAliases(pins[..j + 1], hash)
  {
    var a := PinAlias(PinId(pins[j]), hash);
    if a in aliases {
      var k :| 0 <= k < j && a == PinAlias(PinId(pins[k]), hash);
    } else {
      var some := pins[..j + 1];
      forall k, l | 0 <= k < l < |some| ensures PinAlias(PinId(some[k]), hash) != PinAlias(PinId(some[l]), hash) {
        assert PinAlias(PinId(pins[k]), hash) in aliases;
        if l < j { assert pins[..j][k] == pins[k] && pins[..j][l] == pins[l]; }
      }
    }
  }

  /** The lines of one node's pins, or nothing when two of them share an alias. */
  method ExportPins(pins: seq<Pin>, hash: Text -> Text) returns (r: Option<seq<Text>>)
    ensures r == if DistinctPinAliases(pins, hash) then Some(PinLines(pins, hash)) else None
  {
    var lines: seq<Text> := [];
    var aliases: set<Text> := {};
    for j := 0 to |pins|
      invariant lines == PinLines(pins, hash)[..j]
      invariant TakenBy(aliases, pins, j, hash)
      invariant DistinctPinAliases(pins[..j], hash)
    {
      var id := PinAlias(PinId(pins[j]), hash);
      PinAliasTaken(aliases, pins, j, hash);
      if id in aliases {
        return None;
      }
      aliases := aliases + {id};
      TakeSnoc(PinLines(pins, hash), j);
      lines := lines + [PinLine(pins[j], hash)];
    }
    assert pins[..|pins|] == pins && lines == PinLines(pins, hash);
    r := Some(lines);
  }

  lemma AliasTaken(nodes: seq<Node>, i: nat, hash: Text -> Text)
    requires i < |nodes|
    ensures NodeAlias(nodes[i], hash) in AliasesOf(nodes[..i], hash) ==> !DistinctIn(nodes, hash)
    ensures AliasesOf(nodes[..i + 1], hash) == AliasesOf(nodes[..i], hash) + {NodeAlias(nodes[i], hash)}
  {
    var id := NodeAlias(nodes[i], hash);
    var before, after := AliasesOf(nodes[..i], hash), AliasesOf(nodes[..i + 1], hash);
    if id in before {
      var k :| 0 <= k < |nodes[..i]| && id == NodeAlias(nodes[..i][k], hash);
      assert nodes[..i][k] == nodes[k];
    }
    forall x ensures x in after <==> x in before + {id} {
      if x in after {
        var k :| 0 <= k < |nodes[..i + 1]| && x == NodeAlias(nodes[..i + 1][k], hash);
        if k < i { assert x == NodeAlias(nodes[..i][k], hash); }
      }
      if x in before {
        var k :| 0 <= k < |nodes[..i]| && x == NodeAlias(nodes[..i][k], hash);
        assert x == NodeAlias(nodes[..i + 1][k], hash);
      }
      assert id == NodeAlias(nodes[..i + 1][i], hash);
    }
  }

  lemma DistinctSnoc(nodes: seq<Node>, i: nat, hash: Text -> Text)
    requires i < |nodes| && DistinctIn(nodes[..i], hash)
    requires NodeAlias(nodes[i], hash) !in AliasesOf(nodes[..i], hash) && DistinctPinAliases(nodes[i].pins, hash)
    ensures DistinctIn(nodes[..i + 1], hash)
  {
    TakeSnoc(nodes, i);
    forall k | 0 <= k < i ensures NodeAlias(nodes[..i][k], hash) != NodeAlias(nodes[i], hash) {
      assert NodeAlias(nodes[..i][k], hash) in AliasesOf(nodes[..i], hash);
    }
  }

  lemma NodeLinesSnoc(nodes: seq<Node>, i: nat, hash: Text -> Text)
    requires i < |nodes|
    ensures NodeLines(nodes[..i + 1], hash) ==
            NodeLines(nodes[..i], hash) + ([NodeLine(nodes[i], hash)] + PinLines(nodes[i].pins, hash))
  {
    assert nodes[..i + 1][..i] == nodes[..i] && nodes[..i + 1][i] == nodes[i];
  }

  method ExportNodes(nodes: seq<Node>, hash: Text -> Text) returns (r: Option<seq<Text>>)
    ensures r == if DistinctIn(nodes, hash) then Some(NodeLines(nodes, hash)) else None
  {
    var lines: seq<Text> := [];
    var aliases: set<Text> := {};
    assert AliasesOf(nodes[..0], hash) == {};
    for i := 0 to |nodes|
      invariant lines == NodeLines(nodes[..i], hash)
      invariant aliases == AliasesOf(nodes[..i], hash)
      invariant DistinctIn(nodes[..i], hash)
    {
      var id := NodeAlias(nodes[i], hash);
      AliasTaken(nodes, i, hash);
      if id in aliases {
        return None;
      }
      aliases := aliases + {id};
      var own := ExportPins(nodes[i].pins, hash);
      if own.None? {
        return None;
      }
      DistinctSnoc(nodes, i, hash);
      NodeLinesSnoc(nodes, i, hash);
      lines := lines + ([NodeLine(nodes[i], hash)] + own.value);
    }
    assert nodes[..|nodes|] == nodes;
    r := Some(lines);
  }

  method ExportLinks(g: Graph, nodes: map<Text, Node>, pins: map<Text, map<Text, Pin>>, hash: Text -> Text)
    returns (lines: seq<Text>)
    requires Indexed(g.nodes, nodes, pins)
    ensures lines == LinkLines(g.nodes, g.links, hash)
  {
    lines := [];
    for k := 0 to |g.links|
      invariant lines == LinkLines(g.nodes, g.links, hash)[..k]
    {
      var a := FindEndpoint(g, nodes, pins, g.links[k].start, hash);
      var b := FindEndpoint(g, nodes, pins, g.links[k].end, hash);
      var line := if a.Some? && b.Some? then a.value + (ARROW + b.value)
                  else UNRESOLVED + CarrierJson(LinkValue(g.links[k]));
      TakeSnoc(LinkLines(g.nodes, g.links, hash), k);
      lines := lines + [line];
    }
  }

  /** `exportBlueprintDiagram`. */
  method ExportBlueprintDiagram(g: Graph, hash: Text -> Text) returns (r: Option<Text>)
    ensures r == Export(g, hash)
  {
    var nodes, pins, issues := IndexGraph(g);
    if issues > 0 {
      return None;
    }
    var body := ExportNodes(g.nodes, hash);
    if body.None? {
      return None;
    }
    var links := ExportLinks(g, nodes, pins, hash);
    r := Some(JoinLines([HEADER, GRAPH + CarrierJson(Obj(g.metadata))] + (body.value + links)) + [NEWLINE]);
  }

  /** The two lookups and the alias pair, against the search they stand for. */
  lemma EndpointFound(g: Graph, nodes: map<Text, Node>, pins: map<Text, map<Text, Pin>>, r: PinRef, hash: Text -> Text)
    requires Indexed(g.nodes, nodes, pins) && r.path.Some?
    ensures var path := r.path.value;
            path in nodes ==>
              && path in pins
              && Endpoint(g.nodes, r, hash) ==
                 if r.pinId in pins[path]
                 then Some(NodeAlias(nodes[path], hash) + ['.' as int] + PinAlias(r.pinId, hash)) else None
    ensures r.path.value !in nodes ==> Endpoint(g.nodes, r, hash) == None
  {
    LookupEndpoint(g, nodes, pins, r.path.value, r.pinId);
  }

  method FindEndpoint(g: Graph, nodes: map<Text, Node>, pins: map<Text, map<Text, Pin>>, r: PinRef, hash: Text -> Text)
    returns (e: Option<Text>)
    requires Indexed(g.nodes, nodes, pins)
    ensures e == Endpoint(g.nodes, r, hash)
  {
    if r.path.None? {
      return None;
    }
    EndpointFound(g, nodes, pins, r, hash);
    var path := r.path.value;
    if path in nodes && r.pinId in pins[path] {
      e := Some(NodeAlias(nodes[path], hash) + ['.' as int] + PinAlias(r.pinId, hash));
    } else {
      e := None;
    }
  }

  // ---------------------------------------------------------------------------------------------
  // Parsing

  /** `parseBlueprintDiagram`: one pass over the lines, every error a `None`. */
  method ParseBlueprintDiagram(source: Text, s: Schema) returns (r: Option<Graph>)
    ensures r == ParseDiagram(source, s)
  {
    var all := SplitLines(TrimEnd(source));
    if all[0] != HEADER || |all| < 2 || !(GRAPH <= all[1]) {
      return None;
    }
    var metadata := ParseObjectText(all[1][|GRAPH|..]);
    if metadata.None? {
      return None;
    }
    var lines := all[2..];
    var state := START;
    for k := 0 to |lines|
      invariant Run(START, lines, Stepper(s)) == Run(state, lines[k..], Stepper(s))
    {
      var next := ReadLine(state, lines[k], s);
      assert lines[k..][1..] == lines[k + 1..];
      if next.None? {
        return None;
      }
      state := next.value;
    }
    r := DecodeGraph(metadata.value, state.nodes, state.links, s);
  }

  /** The three patterns and the `unresolved` prefix, in the order the parser tries them. */
  method ReadLine(state: State, line: Text, s: Schema) returns (r: Option<State>)
    ensures r == Step(state, line, s)
  {
    var node, pin, wire := MatchNode(line), MatchPin(line), MatchWire(line);
    if node.Some? {
      r := StepNode(state, node.value, s);
    } else if pin.Some? && state.current && state.nodes != [] {
      r := StepPin(state, pin.value, s);
    } else if wire.Some? {
      r := StepWire(state, wire.value.0, wire.value.1);
    } else {
      r := StepUnresolved(state, line);
    }
  }
}
