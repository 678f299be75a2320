/** Parsing an exported diagram gives the graph back, and exactly when it does not. */
module BlueprintRoundTrip {
  import opened Basics
  import opened Utf16
  import opened TextEnds
  import opened Json
  import opened BlueprintText
  import opened BlueprintCarrier

  // ---------------------------------------------------------------------------------------------
  // Tails and titles

  lemma TailReads(ms: seq<Member>)
    requires Plain(Obj(ms))
    ensures ParseObjectText(CarrierJson(Obj(ms))) == Some(ms)
    ensures IsTail(CarrierJson(Obj(ms))) <==> !SeparatorInside(Obj(ms))
  {
    var t := CarrierJson(Obj(ms));
    CarrierReadsBack(Obj(ms));
    CarrierSeparator(Obj(ms));
    CarrierEnds(ms);
    if SeparatorInside(Obj(ms)) {
      var i :| 0 <= i < |t| && Separator(t[i]);
      assert LineTerminator(t[i]);
    }
  }

  lemma CarrierEnds(ms: seq<Member>)
    requires Plain(Obj(ms))
    ensures var t := CarrierJson(Obj(ms)); t != [] && t[|t| - 1] == '}' as int && Printable(t)
  {
    EscapedPrint(Obj(ms));
    CarrierSeparator(Obj(ms));
  }

  lemma TitleReads(v: Text)
    ensures ParseStringText(CarrierJson(Str(v))) == Some(v)
    ensures Printable(CarrierJson(Str(v)))
  {
    CarrierReadsBack(Str(v));
    CarrierSeparator(Str(v));
  }

  lemma NodeAliasWord(node: Node, hash: Text -> Text)
    requires WordHash(hash)
    ensures NodeAlias(node, hash) != [] && AllWord(NodeAlias(node, hash)) && NodeAlias(node, hash)[0] == 'n' as int
  {
  }

  lemma PinAliasWord(id: Text, hash: Text -> Text)
    requires WordHash(hash)
    ensures PinAlias(id, hash) != [] && AllWord(PinAlias(id, hash))
  {
  }

  // ---------------------------------------------------------------------------------------------
  // Patterns on exported lines

  lemma PlaceMatches(id: Text, title: Text, node: Node)
    requires Plain(Obj(node.source))
    ensures MatchPlace(id, title, PlaceText(node)) ==
            if SeparatorInside(Obj(node.source)) then None
            else Some(NodeMatch(id, title, node.x, node.y, CarrierJson(Obj(node.source))))
  {
    var tail := CarrierJson(Obj(node.source));
    var r4 := SPACE + tail;
    var r3 := IntText(node.y) + r4;
    var r2 := COMMA + r3;
    var r1 := IntText(node.x) + r2;
    ExpectReads(AT, r1);
    assert r2[0] == ',' as int;
    ScanIntReads(node.x, r2);
    ExpectReads(COMMA, r3);
    assert r4[0] == ' ' as int;
    ScanIntReads(node.y, r4);
    ExpectReads(SPACE, tail);
    TailReads(node.source);
  }

  lemma NodeLineMatches(node: Node, hash: Text -> Text)
    requires WordHash(hash) && Plain(Obj(node.source))
    ensures MatchNode(NodeLine(node, hash)) ==
            if SeparatorInside(Obj(node.source)) then None
            else Some(NodeMatch(NodeAlias(node, hash), CarrierJson(Str(node.title)), node.x, node.y,
                                CarrierJson(Obj(node.source))))
  {
    var r3 := CarrierJson(Str(node.title)) + PlaceText(node);
    var r2 := OPEN + r3;
    var r1 := NodeAlias(node, hash) + r2;
    NodeAliasWord(node, hash);
    ExpectReads(NODE, r1);
    assert r2[0] == '[' as int;
    ScanWordReads(NodeAlias(node, hash), r2);
    ExpectReads(OPEN, r3);
    ScanStringReads(node.title, PlaceText(node));
    PlaceMatches(NodeAlias(node, hash), CarrierJson(Str(node.title)), node);
  }

  lemma PinTailMatches(pin: Pin, id: Text, name: Text)
    requires Plain(Obj(pin.source))
    ensures MatchPinTail(pin.direction, id, name, CLOSE + CarrierJson(Obj(pin.source))) ==
            if SeparatorInside(Obj(pin.source)) then None
            else Some(PinMatch(pin.direction, id, name, CarrierJson(Obj(pin.source))))
  {
    ExpectReads(CLOSE, CarrierJson(Obj(pin.source)));
    TailReads(pin.source);
  }

  lemma PinRestMatches(pin: Pin, hash: Text -> Text)
    requires WordHash(hash) && Plain(Obj(pin.source))
    ensures MatchPinRest(pin.direction, PinRest(pin, hash)) ==
            if SeparatorInside(Obj(pin.source)) then None
            else Some(PinMatch(pin.direction, PinAlias(PinId(pin), hash), CarrierJson(Str(pin.name)),
                               CarrierJson(Obj(pin.source))))
  {
    var r3 := CLOSE + CarrierJson(Obj(pin.source));
    var r2 := CarrierJson(Str(pin.name)) + r3;
    var r1 := OPEN + r2;
    PinAliasWord(PinId(pin), hash);
    assert r1[0] == '[' as int;
    ScanWordReads(PinAlias(PinId(pin), hash), r1);
    ExpectReads(OPEN, r2);
    ScanStringReads(pin.name, r3);
    PinTailMatches(pin, PinAlias(PinId(pin), hash), CarrierJson(Str(pin.name)));
  }

  lemma PinLineMatches(pin: Pin, hash: Text -> Text)
    requires WordHash(hash) && Plain(Obj(pin.source))
    ensures MatchPin(PinLine(pin, hash)) ==
            if SeparatorInside(Obj(pin.source)) then None
            else Some(PinMatch(pin.direction, PinAlias(PinId(pin), hash), CarrierJson(Str(pin.name)),
                               CarrierJson(Obj(pin.source))))
  {
    var word := if pin.direction.Input? then IN else OUT;
    var rest := PinRest(pin, hash);
    ExpectReads(SPACES, word + rest);
    ExpectReads(word, rest);
    if pin.direction.Output? {
      assert (word + rest)[0] == 'o' as int && IN[0] == 'i' as int;
    }
    PinRestMatches(pin, hash);
  }

  /** A line that starts with a word and a space is neither a wire nor, with this word, anything else. */
  lemma WordThenSpace(line: Text, n: nat)
    requires n < |line| && AllWord(line[..n]) && line[n] == ' ' as int
    ensures MatchWire(line) == None
  {
    assert line == line[..n] + line[n..];
    WordCountExact(line[..n], line[n..]);
  }

  lemma NodeWordOnly(rest: Text)
    ensures var line := NODE + rest;
            MatchPin(line) == None && MatchWire(line) == None && Expect(UNRESOLVED, line) == None
  {
    var line := NODE + rest;
    assert line[0] == NODE[0] == 'n' as int && SPACES[0] == ' ' as int && UNRESOLVED[0] == 'u' as int;
    assert line[4] == NODE[4] == ' ' as int;
    forall i | 0 <= i < 4 ensures Word(line[..4][i]) {
      assert line[i] == NODE[i];
    }
    WordThenSpace(line, 4);
  }

  lemma SpacesOnly(rest: Text)
    ensures var line := SPACES + rest;
            MatchNode(line) == None && MatchWire(line) == None && Expect(UNRESOLVED, line) == None
  {
    var line := SPACES + rest;
    assert line[0] == SPACES[0] == ' ' as int && UNRESOLVED[0] == 'u' as int && NODE[0] == 'n' as int;
    WordThenSpace(line, 0);
  }

  /** A word and a dot never start with the word and space of a node line. */
  lemma NotNodeWord(a: Text, rest: Text)
    requires AllWord(a)
    ensures Expect(NODE, a + (['.' as int] + rest)) == None
  {
    var line := a + (['.' as int] + rest);
    assert NODE[4] == ' ' as int && line[|a|] == '.' as int;
    assert NODE[0] != '.' as int && NODE[1] != '.' as int && NODE[2] != '.' as int && NODE[3] != '.' as int;
    if |a| > 4 {
      assert line[4] == a[4] && Word(a[4]);
    } else {
      assert NODE[|a|] != line[|a|];
    }
  }

  lemma WireScans(a: Text, b: Text, c: Text, d: Text)
    requires a != [] && AllWord(a) && b != [] && AllWord(b) && c != [] && AllWord(c) && d != [] && AllWord(d)
    ensures MatchWire((a + ['.' as int] + b) + (ARROW + (c + ['.' as int] + d))) ==
            Some((a + ['.' as int] + b, c + ['.' as int] + d))
  {
    var right := c + ['.' as int] + d;
    assert (ARROW + right)[0] == ' ' as int;
    ScanEndpointReads(a, b, ARROW + right);
    ExpectReads(ARROW, right);
    assert right + [] == right;
    ScanEndpointReads(c, d, []);
  }

  lemma WireLineMatches(a: Text, b: Text, c: Text, d: Text)
    requires a != [] && AllWord(a) && b != [] && AllWord(b) && c != [] && AllWord(c) && d != [] && AllWord(d)
    ensures var line := (a + ['.' as int] + b) + (ARROW + (c + ['.' as int] + d));
            MatchNode(line) == None && MatchPin(line) == None &&
            MatchWire(line) == Some((a + ['.' as int] + b, c + ['.' as int] + d))
  {
    var rest := ARROW + (c + ['.' as int] + d);
    var line := (a + ['.' as int] + b) + rest;
    WireScans(a, b, c, d);
    Assoc(a + ['.' as int], b, rest);
    Assoc(a, ['.' as int], b + rest);
    NotNodeWord(a, b + rest);
    assert line[0] == a[0] && Word(a[0]) && SPACES[0] == ' ' as int;
  }

  lemma UnresolvedLineMatches(rest: Text)
    ensures var line := UNRESOLVED + rest;
            MatchNode(line) == None && MatchPin(line) == None && MatchWire(line) == None
  {
    var line := UNRESOLVED + rest;
    assert line[0] == 'u' as int && NODE[0] == 'n' as int && SPACES[0] == ' ' as int;
    assert line[10] == UNRESOLVED[10] == ' ' as int;
    forall i | 0 <= i < 10 ensures Word(line[..10][i]) {
      assert line[i] == UNRESOLVED[i];
    }
    WordThenSpace(line, 10);
  }

  // ---------------------------------------------------------------------------------------------
  // The parser's state after whole nodes

  function Key(node: Node, pin: Pin, hash: Text -> Text): (k: Text) {
    NodeAlias(node, hash) + ['.' as int] + PinAlias(PinId(pin), hash)
  }

  lemma KeysDiffer(a: Text, b: Text, c: Text, d: Text)
    requires AllWord(a) && AllWord(b) && AllWord(c) && AllWord(d)
    requires a + ['.' as int] + b == c + ['.' as int] + d
    ensures a == c && b == d
  {
    var k := a + ['.' as int] + b;
    assert k[|a|] == '.' as int && k[|c|] == '.' as int;
    assert |a| == |c|;
    assert a == k[..|a|] && c == k[..|c|];
    assert b == k[|a| + 1..] && d == k[|c| + 1..];
  }

  function PinEndpoints(node: Node, pins: seq<Pin>, hash: Text -> Text): (m: map<Text, PinRef>) {
    if pins == [] then map[]
    else
      var pin := pins[|pins| - 1];
      PinEndpoints(node, pins[..|pins| - 1], hash)[Key(node, pin, hash) := PinRef(Some(Path(node)), PinId(pin))]
  }

  function Endpoints(nodes: seq<Node>, hash: Text -> Text): (m: map<Text, PinRef>) {
    if nodes == [] then map[]
    else
      var node := nodes[|nodes| - 1];
      Endpoints(nodes[..|nodes| - 1], hash) + PinEndpoints(node, node.pins, hash)
  }

  lemma {:induction false} PinEndpointsKey(node: Node, pins: seq<Pin>, hash: Text -> Text, k: Text)
    requires k in PinEndpoints(node, pins, hash)
    ensures exists j :: 0 <= j < |pins| && k == Key(node, pins[j], hash)
  {
    var n := |pins| - 1;
    if k != Key(node, pins[n], hash) {
      PinEndpointsKey(node, pins[..n], hash, k);
      var j :| 0 <= j < |pins[..n]| && k == Key(node, pins[..n][j], hash);
      assert pins[..n][j] == pins[j];
    }
  }

  lemma {:induction false} EndpointsKey(nodes: seq<Node>, hash: Text -> Text, k: Text)
    requires k in Endpoints(nodes, hash)
    ensures exists i, j :: 0 <= i < |nodes| && 0 <= j < |nodes[i].pins| && k == Key(nodes[i], nodes[i].pins[j], hash)
  {
    var n := |nodes| - 1;
    if k in PinEndpoints(nodes[n], nodes[n].pins, hash) {
      PinEndpointsKey(nodes[n], nodes[n].pins, hash, k);
    } else {
      EndpointsKey(nodes[..n], hash, k);
      var i, j :| 0 <= i < |nodes[..n]| && 0 <= j < |nodes[..n][i].pins| &&
                  k == Key(nodes[..n][i], nodes[..n][i].pins[j], hash);
      assert nodes[..n][i] == nodes[i];
    }
  }

  ghost predicate DistinctNodeAliases(nodes: seq<Node>, hash: Text -> Text) {
    forall i, j | 0 <= i < j < |nodes| :: NodeAlias(nodes[i], hash) != NodeAlias(nodes[j], hash)
  }

  ghost predicate DistinctIn(nodes: seq<Node>, hash: Text -> Text) {
    DistinctNodeAliases(nodes, hash) && forall i | 0 <= i < |nodes| :: DistinctPinAliases(nodes[i].pins, hash)
  }

  /** A pin not yet read has a key not yet taken. */
  lemma FreshKey(nodes: seq<Node>, j: nat, hash: Text -> Text)
    requires WordHash(hash) && DistinctIn(nodes, hash) && nodes != []
    requires j < |nodes[|nodes| - 1].pins|
    ensures var n := |nodes| - 1; var node := nodes[n];
            Key(node, node.pins[j], hash) !in Endpoints(nodes[..n], hash) + PinEndpoints(node, node.pins[..j], hash)
  {
    var n := |nodes| - 1;
    var node := nodes[n];
    var pin := node.pins[j];
    var k := Key(node, pin, hash);
    NodeAliasWord(node, hash);
    PinAliasWord(PinId(pin), hash);
    if k in Endpoints(nodes[..n], hash) {
      EndpointsKey(nodes[..n], hash, k);
      var i, l :| 0 <= i < |nodes[..n]| && 0 <= l < |nodes[..n][i].pins| &&
                  k == Key(nodes[..n][i], nodes[..n][i].pins[l], hash);
      var other := nodes[..n][i];
      assert other == nodes[i];
      NodeAliasWord(other, hash);
      PinAliasWord(PinId(other.pins[l]), hash);
      KeysDiffer(NodeAlias(node, hash), PinAlias(PinId(pin), hash), NodeAlias(other, hash),
                 PinAlias(PinId(other.pins[l]), hash));
    }
    if k in PinEndpoints(node, node.pins[..j], hash) {
      PinEndpointsKey(node, node.pins[..j], hash, k);
      var l :| 0 <= l < |node.pins[..j]| && k == Key(node, node.pins[..j][l], hash);
      assert node.pins[..j][l] == node.pins[l];
      PinAliasWord(PinId(node.pins[l]), hash);
      KeysDiffer(NodeAlias(node, hash), PinAlias(PinId(pin), hash), NodeAlias(node, hash),
                 PinAlias(PinId(node.pins[l]), hash));
    }
  }

  lemma {:induction false} PinEndpointsValue(node: Node, pins: seq<Pin>, j: nat, hash: Text -> Text)
    requires WordHash(hash) && j < |pins| && DistinctPinAliases(pins, hash)
    ensures Key(node, pins[j], hash) in PinEndpoints(node, pins, hash)
    ensures PinEndpoints(node, pins, hash)[Key(node, pins[j], hash)] == PinRef(Some(Path(node)), PinId(pins[j]))
  {
    var n := |pins| - 1;
    if j < n {
      assert pins[..n][j] == pins[j];
      PinEndpointsValue(node, pins[..n], j, hash);
      if Key(node, pins[j], hash) == Key(node, pins[n], hash) {
        NodeAliasWord(node, hash);
        PinAliasWord(PinId(pins[j]), hash);
        PinAliasWord(PinId(pins[n]), hash);
        KeysDiffer(NodeAlias(node, hash), PinAlias(PinId(pins[j]), hash), NodeAlias(node, hash),
                   PinAlias(PinId(pins[n]), hash));
      }
    }
  }

  /** After all nodes, the endpoint table resolves every pin's alias pair to that pin. */
  lemma {:induction false} EndpointsValue(nodes: seq<Node>, i: nat, j: nat, hash: Text -> Text)
    requires WordHash(hash) && DistinctIn(nodes, hash) && i < |nodes| && j < |nodes[i].pins|
    ensures var k := Key(nodes[i], nodes[i].pins[j], hash);
            k in Endpoints(nodes, hash) &&
            Endpoints(nodes, hash)[k] == PinRef(Some(Path(nodes[i])), PinId(nodes[i].pins[j]))
  {
    var n := |nodes| - 1;
    var k := Key(nodes[i], nodes[i].pins[j], hash);
    if i == n {
      PinEndpointsValue(nodes[n], nodes[n].pins, j, hash);
    } else {
      assert nodes[..n][i] == nodes[i];
      EndpointsValue(nodes[..n], i, j, hash);
      if k in PinEndpoints(nodes[n], nodes[n].pins, hash) {
        PinEndpointsKey(nodes[n], nodes[n].pins, hash, k);
        var l :| 0 <= l < |nodes[n].pins| && k == Key(nodes[n], nodes[n].pins[l], hash);
        NodeAliasWord(nodes[i], hash);
        NodeAliasWord(nodes[n], hash);
        PinAliasWord(PinId(nodes[i].pins[j]), hash);
        PinAliasWord(PinId(nodes[n].pins[l]), hash);
        KeysDiffer(NodeAlias(nodes[i], hash), PinAlias(PinId(nodes[i].pins[j]), hash), NodeAlias(nodes[n], hash),
                   PinAlias(PinId(nodes[n].pins[l]), hash));
      }
    }
  }

  // ---------------------------------------------------------------------------------------------
  // Running the parser over the exported lines

  /** No tail of the node holds U+2028 or U+2029. */
  predicate CleanNode(node: Node) {
    !SeparatorInside(Obj(node.source)) && CleanPins(node.pins, 0)
  }

  predicate CleanNodes(nodes: seq<Node>) {
    forall i | 0 <= i < |nodes| :: CleanNode(nodes[i])
  }

  lemma {:induction false} RunConcat(state: State, a: seq<Text>, b: seq<Text>, step: (State, Text) -> Option<State>)
    ensures Run(state, a + b, step) ==
            match Run(state, a, step) case None => None case Some(next) => Run(next, b, step)
    decreases a
  {
    if a == [] {
      assert a + b == b;
    } else {
      assert (a + b)[1..] == a[1..] + b;
      match step(state, a[0])
      case None =>
      case Some(next) => RunConcat(next, a[1..], b, step);
    }
  }

  function AliasesOf(nodes: seq<Node>, hash: Text -> Text): (ids: set<Text>) {
    set i | 0 <= i < |nodes| :: NodeAlias(nodes[i], hash)
  }

  /** The state once `nodes` are read, the last one with its first `j` pins only. */
  function Loaded(nodes: seq<Node>, j: nat, hash: Text -> Text): (state: State)
    requires nodes != [] && j <= |nodes[|nodes| - 1].pins|
  {
    var n := |nodes| - 1;
    var node := nodes[n];
    State(nodes[..n] + [node.(pins := node.pins[..j])], [],
          Endpoints(nodes[..n], hash) + PinEndpoints(node, node.pins[..j], hash),
          true, NodeAlias(node, hash), AliasesOf(nodes, hash))
  }

  function After(nodes: seq<Node>, hash: Text -> Text): (state: State) {
    if nodes == [] then START else Loaded(nodes, |nodes[|nodes| - 1].pins|, hash)
  }

  lemma AfterFacts(nodes: seq<Node>, hash: Text -> Text)
    ensures var st := After(nodes, hash);
            st.nodes == nodes && st.links == [] && st.endpoints == Endpoints(nodes, hash) &&
            st.ids == AliasesOf(nodes, hash)
  {
    if nodes == [] {
      assert AliasesOf(nodes, hash) == {};
    } else {
      var n := |nodes| - 1;
      var node := nodes[n];
      assert node.pins[..|node.pins|] == node.pins;
      assert nodes[..n] + [node] == nodes;
    }
  }

  lemma AliasFresh(nodes: seq<Node>, hash: Text -> Text)
    requires DistinctNodeAliases(nodes, hash) && nodes != []
    ensures var n := |nodes| - 1;
            NodeAlias(nodes[n], hash) !in AliasesOf(nodes[..n], hash) &&
            AliasesOf(nodes[..n], hash) + {NodeAlias(nodes[n], hash)} == AliasesOf(nodes, hash)
  {
    var n := |nodes| - 1;
    var a, b := AliasesOf(nodes[..n], hash), AliasesOf(nodes, hash);
    forall x ensures x in a + {NodeAlias(nodes[n], hash)} <==> x in b {
      if x in a {
        var i :| 0 <= i < |nodes[..n]| && x == NodeAlias(nodes[..n][i], hash);
        assert x == NodeAlias(nodes[i], hash);
      }
      if x in b && x != NodeAlias(nodes[n], hash) {
        var i :| 0 <= i < |nodes| && x == NodeAlias(nodes[i], hash);
        assert nodes[..n][i] == nodes[i];
      }
    }
  }

  lemma NodeTaken(nodes: seq<Node>, hash: Text -> Text, s: Schema)
    requires WordHash(hash) && nodes != [] && DistinctIn(nodes, hash)
    requires ValidNode(nodes[|nodes| - 1], s)
    ensures var n := |nodes| - 1; var node := nodes[n];
            StepNode(After(nodes[..n], hash),
                     NodeMatch(NodeAlias(node, hash), CarrierJson(Str(node.title)), node.x, node.y,
                               CarrierJson(Obj(node.source))), s) ==
            Some(Loaded(nodes, 0, hash))
  {
    var n := |nodes| - 1;
    var node := nodes[n];
    AfterFacts(nodes[..n], hash);
    AliasFresh(nodes, hash);
    TailReads(node.source);
    TitleReads(node.title);
    WithoutNothing(node.source, NODE_KEYS);
    assert node.pins[..0] == [];
    assert Endpoints(nodes[..n], hash) + map[] == Endpoints(nodes[..n], hash);
  }

  /** A node line pushes the node without pins, or is rejected for its tail. */
  lemma NodeStep(nodes: seq<Node>, hash: Text -> Text, s: Schema)
    requires WordHash(hash) && nodes != [] && DistinctIn(nodes, hash)
    requires ValidNode(nodes[|nodes| - 1], s)
    ensures var n := |nodes| - 1;
            Step(After(nodes[..n], hash), NodeLine(nodes[n], hash), s) ==
            if SeparatorInside(Obj(nodes[n].source)) then None else Some(Loaded(nodes, 0, hash))
  {
    var node := nodes[|nodes| - 1];
    NodeLineMatches(node, hash);
    NodeWordOnly(NodeAlias(node, hash) + (OPEN + (CarrierJson(Str(node.title)) + PlaceText(node))));
    if !SeparatorInside(Obj(node.source)) {
      NodeTaken(nodes, hash, s);
    }
  }

  /** Which step a pin line takes. */
  lemma PinDispatch(state: State, line: Text, s: Schema)
    requires MatchNode(line) == None && MatchWire(line) == None && Expect(UNRESOLVED, line) == None
    requires state.current && state.nodes != []
    ensures Step(state, line, s) ==
            match MatchPin(line) case Some(m) => StepPin(state, m, s) case None => None
  {
  }

  lemma PinTaken(nodes: seq<Node>, j: nat, hash: Text -> Text, s: Schema)
    requires WordHash(hash) && nodes != [] && DistinctIn(nodes, hash)
    requires j < |nodes[|nodes| - 1].pins| && ValidPin(nodes[|nodes| - 1].pins[j], s)
    ensures var pin := nodes[|nodes| - 1].pins[j];
            StepPin(Loaded(nodes, j, hash),
                    PinMatch(pin.direction, PinAlias(PinId(pin), hash), CarrierJson(Str(pin.name)),
                             CarrierJson(Obj(pin.source))), s) ==
            Some(Loaded(nodes, j + 1, hash))
  {
    var pin := nodes[|nodes| - 1].pins[j];
    TailReads(pin.source);
    TitleReads(pin.name);
    WithoutNothing(pin.source, PIN_KEYS);
    FreshKey(nodes, j, hash);
    PinStepState(nodes, j, hash);
    assert Pin(pin.source, pin.name, pin.direction) == pin;
  }

  /** A pin line pushes the pin onto the current node, or is rejected for its tail. */
  lemma PinStep(nodes: seq<Node>, j: nat, hash: Text -> Text, s: Schema)
    requires WordHash(hash) && nodes != [] && DistinctIn(nodes, hash)
    requires j < |nodes[|nodes| - 1].pins| && ValidPin(nodes[|nodes| - 1].pins[j], s)
    ensures var pin := nodes[|nodes| - 1].pins[j];
            Step(Loaded(nodes, j, hash), PinLine(pin, hash), s) ==
            if SeparatorInside(Obj(pin.source)) then None else Some(Loaded(nodes, j + 1, hash))
  {
    var pin := nodes[|nodes| - 1].pins[j];
    PinLineMatches(pin, hash);
    SpacesOnly((if pin.direction.Input? then IN else OUT) + PinRest(pin, hash));
    PinDispatch(Loaded(nodes, j, hash), PinLine(pin, hash), s);
    if !SeparatorInside(Obj(pin.source)) {
      PinTaken(nodes, j, hash, s);
    }
  }

  lemma PinStepState(nodes: seq<Node>, j: nat, hash: Text -> Text)
    requires nodes != [] && j < |nodes[|nodes| - 1].pins|
    ensures var n := |nodes| - 1; var node := nodes[n]; var pin := node.pins[j];
            var st := Loaded(nodes, j, hash); var next := Loaded(nodes, j + 1, hash);
            next.nodes == st.nodes[..n] + [st.nodes[n].(pins := st.nodes[n].pins + [pin])] &&
            next.endpoints == st.endpoints[Key(node, pin, hash) := PinRef(Some(Path(node)), PinId(pin))]
  {
    var n := |nodes| - 1;
    var node := nodes[n];
    TakeSnoc(node.pins, j);
    assert node.pins[..j + 1][..j] == node.pins[..j];
    assert Loaded(nodes, j, hash).nodes[..n] == nodes[..n];
  }

  predicate CleanPins(pins: seq<Pin>, j: nat) {
    forall k | j <= k < |pins| :: !SeparatorInside(Obj(pins[k].source))
  }

  lemma {:induction false} PinsRun(nodes: seq<Node>, j: nat, hash: Text -> Text, s: Schema)
    requires WordHash(hash) && nodes != [] && DistinctIn(nodes, hash) && ValidNode(nodes[|nodes| - 1], s)
    requires j <= |nodes[|nodes| - 1].pins|
    ensures var node := nodes[|nodes| - 1];
            Run(Loaded(nodes, j, hash), PinLines(node.pins, hash)[j..], Stepper(s)) ==
            if CleanPins(node.pins, j) then Some(After(nodes, hash)) else None
    decreases |nodes[|nodes| - 1].pins| - j
  {
    var node := nodes[|nodes| - 1];
    var lines := PinLines(node.pins, hash)[j..];
    if j < |node.pins| {
      PinStep(nodes, j, hash, s);
      assert lines[0] == PinLine(node.pins[j], hash);
      assert lines[1..] == PinLines(node.pins, hash)[j + 1..];
      assert CleanPins(node.pins, j) <==> !SeparatorInside(Obj(node.pins[j].source)) && CleanPins(node.pins, j + 1);
      if !SeparatorInside(Obj(node.pins[j].source)) {
        PinsRun(nodes, j + 1, hash, s);
      }
    }
  }

  /** The lines of one node. */
  lemma NodeRun(nodes: seq<Node>, hash: Text -> Text, s: Schema)
    requires WordHash(hash) && nodes != [] && DistinctIn(nodes, hash) && ValidNode(nodes[|nodes| - 1], s)
    ensures var n := |nodes| - 1;
            Run(After(nodes[..n], hash), [NodeLine(nodes[n], hash)] + PinLines(nodes[n].pins, hash), Stepper(s)) ==
            if CleanNode(nodes[n]) then Some(After(nodes, hash)) else None
  {
    var n := |nodes| - 1;
    var lines := [NodeLine(nodes[n], hash)] + PinLines(nodes[n].pins, hash);
    NodeStep(nodes, hash, s);
    PinsRun(nodes, 0, hash, s);
    assert lines[1..] == PinLines(nodes[n].pins, hash)[0..];
  }

  lemma CleanSnoc(nodes: seq<Node>)
    requires nodes != []
    ensures CleanNodes(nodes) <==> CleanNodes(nodes[..|nodes| - 1]) && CleanNode(nodes[|nodes| - 1])
  {
    var n := |nodes| - 1;
    assert forall i | 0 <= i < n :: nodes[..n][i] == nodes[i];
  }

  /** All node lines are read back exactly when every tail is clean. */
  lemma {:induction false} NodesRun(nodes: seq<Node>, hash: Text -> Text, s: Schema)
    requires WordHash(hash) && DistinctIn(nodes, hash)
    requires forall i | 0 <= i < |nodes| :: ValidNode(nodes[i], s)
    ensures Run(START, NodeLines(nodes, hash), Stepper(s)) ==
            if CleanNodes(nodes) then Some(After(nodes, hash)) else None
  {
    if nodes != [] {
      var n := |nodes| - 1;
      NodesRun(nodes[..n], hash, s);
      NodeRun(nodes, hash, s);
      RunConcat(START, NodeLines(nodes[..n], hash), [NodeLine(nodes[n], hash)] + PinLines(nodes[n].pins, hash),
                Stepper(s));
      CleanSnoc(nodes);
    }
  }

  // ---------------------------------------------------------------------------------------------
  // Links

  lemma NotIndexKey(k: Text)
    requires k != [] && !Digit(k[0])
    ensures !IndexKey(k)
  {
  }

  lemma OneMember(k: Text, v: Value, absent: Text)
    requires !IndexKey(k) && Plain(v) && absent != k
    ensures Plain(Obj([Member(k, v)])) && Get([Member(k, v)], k) == Some(v) && Get([Member(k, v)], absent) == None
  {
    var ms := [Member(k, v)];
    assert ms[1..] == [];
    assert PlainMembers(ms);
  }

  lemma TwoMembers(k: Text, v: Value, l: Text, w: Value)
    requires !IndexKey(k) && !IndexKey(l) && k != l && Plain(v) && Plain(w)
    ensures var ms := [Member(k, v), Member(l, w)];
            Plain(Obj(ms)) && Get(ms, k) == Some(v) && Get(ms, l) == Some(w)
  {
    var ms := [Member(k, v), Member(l, w)];
    OneMember(l, w, k);
    assert ms[1..] == [Member(l, w)];
    assert PlainMembers(ms);
  }

  lemma RefReads(r: PinRef)
    ensures Plain(RefValue(r)) && DecodeRef(RefValue(r)) == Some(r)
  {
    assert NODE_PATH[0] == 'n' as int && PIN_ID[0] == 'p' as int;
    NotIndexKey(NODE_PATH);
    NotIndexKey(PIN_ID);
    var ms := RefValue(r).members;
    match r.path
    case Some(p) =>
      TwoMembers(NODE_PATH, Str(p), PIN_ID, Str(r.pinId));
      assert ms == [Member(NODE_PATH, Str(p)), Member(PIN_ID, Str(r.pinId))];
    case None =>
      OneMember(PIN_ID, Str(r.pinId), NODE_PATH);
      assert ms == [Member(PIN_ID, Str(r.pinId))];
  }

  lemma LinkReads(link: Link)
    ensures Plain(LinkValue(link)) && DecodeLink(LinkValue(link).members) == Some(link)
  {
    assert FROM[0] == 'f' as int && TO[0] == 't' as int;
    NotIndexKey(FROM);
    NotIndexKey(TO);
    RefReads(link.start);
    RefReads(link.end);
    TwoMembers(FROM, RefValue(link.start), TO, RefValue(link.end));
  }

  /** A reference that resolves is found again in the endpoint table. */
  lemma EndpointReads(nodes: seq<Node>, r: PinRef, hash: Text -> Text) returns (a: Text, b: Text)
    requires WordHash(hash) && DistinctIn(nodes, hash) && Endpoint(nodes, r, hash).Some?
    ensures a != [] && AllWord(a) && b != [] && AllWord(b)
    ensures Endpoint(nodes, r, hash) == Some(a + ['.' as int] + b)
    ensures var k := a + ['.' as int] + b; k in Endpoints(nodes, hash) && Endpoints(nodes, hash)[k] == r
  {
    var node := FindNode(nodes, r.path.value).value;
    var pin := FindPin(node.pins, r.pinId).value;
    var i :| 0 <= i < |nodes| && nodes[i] == node;
    var j :| 0 <= j < |node.pins| && node.pins[j] == pin;
    a, b := NodeAlias(node, hash), PinAlias(r.pinId, hash);
    NodeAliasWord(node, hash);
    PinAliasWord(r.pinId, hash);
    EndpointsValue(nodes, i, j, hash);
  }

  lemma LinkStep(state: State, nodes: seq<Node>, link: Link, hash: Text -> Text, s: Schema)
    requires WordHash(hash) && DistinctIn(nodes, hash) && state.endpoints == Endpoints(nodes, hash)
    ensures Step(state, LinkLine(nodes, link, hash), s) ==
            Some(state.(links := state.links + [link], current := false))
  {
    match (Endpoint(nodes, link.start, hash), Endpoint(nodes, link.end, hash))
    case (Some(x), Some(y)) =>
      var a, b := EndpointReads(nodes, link.start, hash);
      var c, d := EndpointReads(nodes, link.end, hash);
      WireLineMatches(a, b, c, d);
    case _ =>
      var rest := CarrierJson(LinkValue(link));
      UnresolvedLineMatches(rest);
      ExpectReads(UNRESOLVED, rest);
      LinkReads(link);
      TailReads(LinkValue(link).members);
  }

  lemma {:induction false} LinksRun(state: State, nodes: seq<Node>, links: seq<Link>, k: nat, hash: Text -> Text,
                                    s: Schema)
    requires WordHash(hash) && DistinctIn(nodes, hash) && state.endpoints == Endpoints(nodes, hash)
    requires k <= |links| && state.links == links[..k]
    ensures var r := Run(state, LinkLines(nodes, links, hash)[k..], Stepper(s));
            r.Some? && r.value.nodes == state.nodes && r.value.links == links
    decreases |links| - k
  {
    var lines := LinkLines(nodes, links, hash)[k..];
    if k < |links| {
      LinkStep(state, nodes, links[k], hash, s);
      assert lines[0] == LinkLine(nodes, links[k], hash);
      assert lines[1..] == LinkLines(nodes, links, hash)[k + 1..];
      TakeSnoc(links, k);
      LinksRun(state.(links := links[..k + 1], current := false), nodes, links, k + 1, hash, s);
    } else {
      assert links[..k] == links;
    }
  }

  // ---------------------------------------------------------------------------------------------
  // Lines of a text

  /** A line that neither breaks nor ends in white space. */
  ghost predicate Solid(t: Text) {
    t != [] && !Blank(t[|t| - 1]) && forall i | 0 <= i < |t| :: t[i] != NEWLINE && t[i] != RETURN
  }

  ghost predicate Unbroken(t: Text) {
    forall i | 0 <= i < |t| :: t[i] != NEWLINE && t[i] != RETURN
  }

  lemma SolidConcat(a: Text, b: Text)
    requires Unbroken(a) && Solid(b)
    ensures Solid(a + b)
  {
  }

  lemma WordsSolid(t: Text)
    requires t != [] && AllWord(t)
    ensures Solid(t)
  {
  }

  lemma TailSolid(ms: seq<Member>)
    requires Plain(Obj(ms))
    ensures Solid(CarrierJson(Obj(ms)))
  {
    CarrierEnds(ms);
  }

  lemma IntUnbroken(n: int)
    ensures Unbroken(IntText(n))
  {
    NatTextReads(if n < 0 then -n else n);
  }

  lemma AsciiUnbroken(w: string)
    requires forall i | 0 <= i < |w| :: 0x20 <= w[i] as int < 0x80
    ensures Unbroken(Ascii(w))
  {
  }

  lemma LiteralsUnbroken()
    ensures Unbroken(GRAPH) && Unbroken(NODE) && Unbroken(SPACES) && Unbroken(IN) && Unbroken(OUT) && Unbroken(OPEN)
    ensures Unbroken(CLOSE) && Unbroken(AT) && Unbroken(COMMA) && Unbroken(SPACE) && Unbroken(ARROW)
    ensures Unbroken(UNRESOLVED)
  {
    AsciiUnbroken("graph ");
    AsciiUnbroken("node ");
    AsciiUnbroken("  ");
    AsciiUnbroken("in ");
    AsciiUnbroken("out ");
    AsciiUnbroken("[");
    AsciiUnbroken("] ");
    AsciiUnbroken("] @");
    AsciiUnbroken(",");
    AsciiUnbroken(" ");
    AsciiUnbroken(" --> ");
    AsciiUnbroken("unresolved ");
  }

  lemma HeaderSolid()
    ensures Solid(HEADER)
  {
    AsciiUnbroken("blueprint v1");
    assert HEADER[11] == '1' as int;
  }

  lemma NodeLineSolid(node: Node, hash: Text -> Text)
    requires WordHash(hash) && Plain(Obj(node.source))
    ensures Solid(NodeLine(node, hash))
  {
    LiteralsUnbroken();
    var tail := CarrierJson(Obj(node.source));
    TailSolid(node.source);
    IntUnbroken(node.x);
    IntUnbroken(node.y);
    TitleReads(node.title);
    NodeAliasWord(node, hash);
    SolidConcat(SPACE, tail);
    SolidConcat(IntText(node.y), SPACE + tail);
    SolidConcat(COMMA, IntText(node.y) + (SPACE + tail));
    SolidConcat(IntText(node.x), COMMA + (IntText(node.y) + (SPACE + tail)));
    SolidConcat(AT, IntText(node.x) + (COMMA + (IntText(node.y) + (SPACE + tail))));
    var title := CarrierJson(Str(node.title));
    SolidConcat(title, PlaceText(node));
    SolidConcat(OPEN, title + PlaceText(node));
    SolidConcat(NodeAlias(node, hash), OPEN + (title + PlaceText(node)));
    SolidConcat(NODE, NodeAlias(node, hash) + (OPEN + (title + PlaceText(node))));
  }

  lemma PinLineSolid(pin: Pin, hash: Text -> Text)
    requires WordHash(hash) && Plain(Obj(pin.source))
    ensures Solid(PinLine(pin, hash))
  {
    LiteralsUnbroken();
    var tail := CarrierJson(Obj(pin.source));
    var name := CarrierJson(Str(pin.name));
    var alias := PinAlias(PinId(pin), hash);
    var word := if pin.direction.Input? then IN else OUT;
    TailSolid(pin.source);
    TitleReads(pin.name);
    PinAliasWord(PinId(pin), hash);
    SolidConcat(CLOSE, tail);
    SolidConcat(name, CLOSE + tail);
    SolidConcat(OPEN, name + (CLOSE + tail));
    SolidConcat(alias, OPEN + (name + (CLOSE + tail)));
    SolidConcat(word, alias + (OPEN + (name + (CLOSE + tail))));
    SolidConcat(SPACES, word + (alias + (OPEN + (name + (CLOSE + tail)))));
  }

  lemma EndpointSolid(nodes: seq<Node>, r: PinRef, hash: Text -> Text)
    requires WordHash(hash) && Endpoint(nodes, r, hash).Some?
    ensures Solid(Endpoint(nodes, r, hash).value)
  {
    var a, b := NodeAlias(FindNode(nodes, r.path.value).value, hash), PinAlias(r.pinId, hash);
    NodeAliasWord(FindNode(nodes, r.path.value).value, hash);
    PinAliasWord(r.pinId, hash);
    WordsSolid(b);
    SolidConcat(a + ['.' as int], b);
  }

  lemma WireSolid(x: Text, y: Text)
    requires Solid(x) && Solid(y)
    ensures Solid(x + (ARROW + y))
  {
    LiteralsUnbroken();
    SolidConcat(ARROW, y);
    SolidConcat(x, ARROW + y);
  }

  lemma LinkLineSolid(nodes: seq<Node>, link: Link, hash: Text -> Text)
    requires WordHash(hash)
    ensures Solid(LinkLine(nodes, link, hash))
  {
    match (Endpoint(nodes, link.start, hash), Endpoint(nodes, link.end, hash))
    case (Some(x), Some(y)) =>
      EndpointSolid(nodes, link.start, hash);
      EndpointSolid(nodes, link.end, hash);
      WireSolid(x, y);
    case _ =>
      UnresolvedSolid(link);
  }

  lemma UnresolvedSolid(link: Link)
    ensures Solid(UNRESOLVED + CarrierJson(LinkValue(link)))
  {
    LiteralsUnbroken();
    LinkReads(link);
    TailSolid(LinkValue(link).members);
    SolidConcat(UNRESOLVED, CarrierJson(LinkValue(link)));
  }

  ghost predicate AllSolid(lines: seq<Text>) {
    forall i | 0 <= i < |lines| :: Solid(lines[i])
  }

  lemma {:induction false} NodeLinesSolid(nodes: seq<Node>, hash: Text -> Text, s: Schema)
    requires WordHash(hash) && forall i | 0 <= i < |nodes| :: ValidNode(nodes[i], s)
    ensures AllSolid(NodeLines(nodes, hash))
  {
    if nodes != [] {
      var n := |nodes| - 1;
      var pins := nodes[n].pins;
      NodeLinesSolid(nodes[..n], hash, s);
      NodeLineSolid(nodes[n], hash);
      forall j | 0 <= j < |pins| ensures Solid(PinLines(pins, hash)[j]) {
        assert ValidPin(pins[j], s);
        PinLineSolid(pins[j], hash);
      }
    }
  }

  lemma ExportLinesSolid(g: Graph, hash: Text -> Text, s: Schema)
    requires WordHash(hash) && ValidGraph(g, s) && DistinctIn(g.nodes, hash)
    ensures AllSolid(ExportLines(g, hash))
  {
    LiteralsUnbroken();
    HeaderSolid();
    TailSolid(g.metadata);
    SolidConcat(GRAPH, CarrierJson(Obj(g.metadata)));
    NodeLinesSolid(g.nodes, hash, s);
    forall k | 0 <= k < |g.links| ensures Solid(LinkLines(g.nodes, g.links, hash)[k]) {
      LinkLineSolid(g.nodes, g.links[k], hash);
    }
  }

  lemma {:induction false} BreakAtExact(line: Text, rest: Text)
    requires forall i | 0 <= i < |line| :: line[i] != NEWLINE
    ensures BreakAt(line + ([NEWLINE] + rest)) == |line|
  {
    if line != [] {
      assert (line + ([NEWLINE] + rest))[1..] == line[1..] + ([NEWLINE] + rest);
      BreakAtExact(line[1..], rest);
    }
  }

  lemma {:induction false} SplitJoin(lines: seq<Text>)
    requires lines != [] && AllSolid(lines)
    ensures SplitLines(JoinLines(lines)) == lines
  {
    if |lines| == 1 {
      SplitOne(lines[0]);
      assert lines == [lines[0]];
    } else {
      SplitFirst(lines[0], JoinLines(lines[1..]));
      SplitJoin(lines[1..]);
      assert [lines[0]] + lines[1..] == lines;
    }
  }

  lemma SplitOne(line: Text)
    requires Solid(line)
    ensures SplitLines(line) == [line]
  {
    assert BreakAt(line) == |line|;
  }

  lemma SplitFirst(line: Text, rest: Text)
    requires Solid(line)
    ensures SplitLines(line + ([NEWLINE] + rest)) == [line] + SplitLines(rest)
  {
    var t := line + ([NEWLINE] + rest);
    BreakAtExact(line, rest);
    assert t[..|line|] == line && t[|line| + 1..] == rest;
  }

  lemma {:induction false} JoinEnds(lines: seq<Text>)
    requires lines != [] && AllSolid(lines)
    ensures var t := JoinLines(lines); t != [] && !Blank(t[|t| - 1])
  {
    if |lines| > 1 { JoinEnds(lines[1..]); }
  }

  lemma LinesRead(lines: seq<Text>)
    requires lines != [] && AllSolid(lines)
    ensures TrimEnd(JoinLines(lines) + [NEWLINE]) == JoinLines(lines) && SplitLines(JoinLines(lines)) == lines
  {
    JoinEnds(lines);
    SplitJoin(lines);
    TrimBreak(JoinLines(lines));
  }

  lemma TrimBreak(t: Text)
    requires t != [] && !Blank(t[|t| - 1])
    ensures TrimEnd(t + [NEWLINE]) == t
  {
    assert (t + [NEWLINE])[..|t|] == t;
    assert TrimEnd(t) == t;
  }

  // ---------------------------------------------------------------------------------------------
  // The round trip

  lemma BodyRuns(g: Graph, hash: Text -> Text, s: Schema)
    requires WordHash(hash) && ValidGraph(g, s) && DistinctIn(g.nodes, hash)
    ensures var r := Run(START, NodeLines(g.nodes, hash) + LinkLines(g.nodes, g.links, hash), Stepper(s));
            if CleanNodes(g.nodes) then r.Some? && r.value.nodes == g.nodes && r.value.links == g.links
            else r == None
  {
    NodesRun(g.nodes, hash, s);
    RunConcat(START, NodeLines(g.nodes, hash), LinkLines(g.nodes, g.links, hash), Stepper(s));
    if CleanNodes(g.nodes) {
      AfterFacts(g.nodes, hash);
      assert g.links[..0] == [];
      LinksRun(After(g.nodes, hash), g.nodes, g.links, 0, hash, s);
      assert LinkLines(g.nodes, g.links, hash)[0..] == LinkLines(g.nodes, g.links, hash);
    }
  }

  lemma HeadReads(g: Graph, s: Schema)
    requires ValidGraph(g, s)
    ensures ParseObjectText(CarrierJson(Obj(g.metadata))) == Some(g.metadata)
    ensures Without(g.metadata, GRAPH_KEYS) == g.metadata
  {
    TailReads(g.metadata);
    WithoutNothing(g.metadata, GRAPH_KEYS);
  }

  lemma LinesAssemble(head: Text, ms: seq<Member>, body: seq<Text>, s: Schema)
    requires ParseObjectText(head) == Some(ms)
    ensures ParseLines([HEADER, GRAPH + head] + body, s) ==
            match Run(START, body, Stepper(s))
            case None => None
            case Some(state) => DecodeGraph(ms, state.nodes, state.links, s)
  {
    var lines := [HEADER, GRAPH + head] + body;
    ExpectReads(GRAPH, head);
    assert lines[2..] == body;
  }

  lemma LinesParse(g: Graph, hash: Text -> Text, s: Schema)
    requires WordHash(hash) && ValidGraph(g, s) && Unambiguous(g) && DistinctIn(g.nodes, hash)
    ensures ParseLines(ExportLines(g, hash), s) == if CleanNodes(g.nodes) then Some(g) else None
  {
    var body := NodeLines(g.nodes, hash) + LinkLines(g.nodes, g.links, hash);
    HeadReads(g, s);
    LinesAssemble(CarrierJson(Obj(g.metadata)), g.metadata, body, s);
    BodyRuns(g, hash, s);
  }

  /**
   * For every hash into word characters: an exported graph parses back to itself, node, pin and link
   * order included, exactly when no node or pin tail holds U+2028 or U+2029. Such a tail is refused.
   */
  lemma ParseExport(g: Graph, hash: Text -> Text, s: Schema)
    requires WordHash(hash) && ValidGraph(g, s) && Export(g, hash).Some?
    ensures ParseDiagram(Export(g, hash).value, s) == if CleanNodes(g.nodes) then Some(g) else None
  {
    ExportLinesSolid(g, hash, s);
    LinesRead(ExportLines(g, hash));
    LinesParse(g, hash, s);
  }

  /** Exporting the parsed graph again gives the same text. */
  lemma ReExport(g: Graph, hash: Text -> Text, s: Schema)
    requires WordHash(hash) && ValidGraph(g, s) && Export(g, hash).Some? && CleanNodes(g.nodes)
    ensures ParseDiagram(Export(g, hash).value, s).Some?
    ensures Export(ParseDiagram(Export(g, hash).value, s).value, hash) == Export(g, hash)
  {
    ParseExport(g, hash, s);
  }

  /** A graph whose only node path is U+2028 exports to a text that is refused. */
  lemma SeparatorExample(hash: Text -> Text)
    requires WordHash(hash)
    ensures var s := Schema(_ => true, _ => true, _ => true);
            var g := Graph([], [Node([Member(OBJECT_PATH, Str([0x2028]))], [], 0, 0, [])], []);
            ValidGraph(g, s) && Export(g, hash).Some? && ParseDiagram(Export(g, hash).value, s) == None
  {
    var s := Schema(_ => true, _ => true, _ => true);
    var path: Text := [0x2028];
    var node := Node([Member(OBJECT_PATH, Str(path))], [], 0, 0, []);
    var g := Graph([], [node], []);
    assert OBJECT_PATH[0] == 'o' as int && GUID[0] == 'g' as int;
    assert NODE_KEYS[0][0] == 't' as int && NODE_KEYS[1][0] == 'p' as int && NODE_KEYS[2][0] == 'p' as int;
    NotIndexKey(OBJECT_PATH);
    OneMember(OBJECT_PATH, Str(path), GUID);
    assert Free(node.source, NODE_KEYS);
    assert ValidNode(node, s);
    assert Separator(path[0]);
    assert HasSeparator(path);
    assert SeparatorInside(node.source[0].value);
    assert SeparatorInMembers(node.source);
    assert SeparatorInside(Obj(node.source));
    assert !CleanNode(g.nodes[0]);
    ParseExport(g, hash, s);
  }
}
