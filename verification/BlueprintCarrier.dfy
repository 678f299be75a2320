/**
 * The text carrier for saved Blueprint graphs: the line printer, the line parser that undoes it,
 * and the exact condition under which it does.
 */
module BlueprintCarrier {
  import opened Basics
  import opened Utf16
  import opened TextEnds
  import opened Json
  import opened BlueprintText

  // ---------------------------------------------------------------------------------------------
  // Saved graphs

  datatype Direction = Input | Output

  /** `source` holds every member but the ones the line writes in front of it. */
  datatype Pin = Pin(source: seq<Member>, name: Text, direction: Direction)
  datatype Node = Node(source: seq<Member>, title: Text, x: int, y: int, pins: seq<Pin>)
  datatype PinRef = PinRef(path: Option<Text>, pinId: Text)
  datatype Link = Link(start: PinRef, end: PinRef)
  datatype Graph = Graph(metadata: seq<Member>, nodes: seq<Node>, links: seq<Link>)

  /** What the graph schema asks of the members this model does not name. */
  datatype Schema = Schema(graph: seq<Member> -> bool, node: seq<Member> -> bool, pin: seq<Member> -> bool)

  const OBJECT_PATH: Text := Ascii("object_path")
  const GUID: Text := Ascii("guid")
  const ID: Text := Ascii("id")
  const NODE_PATH: Text := Ascii("node_object_path")
  const PIN_ID: Text := Ascii("pin_id")
  const FROM: Text := Ascii("from")
  const TO: Text := Ascii("to")

  const GRAPH_KEYS: seq<Text> := [Ascii("nodes"), Ascii("links")]
  const NODE_KEYS: seq<Text> := [Ascii("title"), Ascii("position"), Ascii("pins")]
  const PIN_KEYS: seq<Text> := [Ascii("name"), Ascii("direction")]

  function TextField(ms: seq<Member>, k: Text): (r: Option<Text>) {
    match Get(ms, k)
    case Some(Str(s)) => Some(s)
    case _ => None
  }

  predicate OptionalText(ms: seq<Member>, k: Text) {
    HasKey(ms, k) ==> TextField(ms, k).Some?
  }

  /** `Schema.Int` takes safe integers only. */
  predicate SafeInt(n: int) {
    -0x1F_FFFF_FFFF_FFFF <= n <= 0x1F_FFFF_FFFF_FFFF
  }

  predicate NodeFields(ms: seq<Member>, s: Schema) {
    TextField(ms, OBJECT_PATH).Some? && OptionalText(ms, GUID) && s.node(ms)
  }

  predicate PinFields(ms: seq<Member>, s: Schema) {
    TextField(ms, ID).Some? && s.pin(ms)
  }

  function Path(node: Node): (p: Text) {
    TextField(node.source, OBJECT_PATH).GetOr([])
  }

  function PinId(pin: Pin): (p: Text) {
    TextField(pin.source, ID).GetOr([])
  }

  // Object rest patterns and spreads

  function Without(ms: seq<Member>, keys: seq<Text>): (r: seq<Member>) {
    if ms == [] then []
    else if ms[0].key in keys then Without(ms[1..], keys)
    else [ms[0]] + Without(ms[1..], keys)
  }

  ghost predicate Free(ms: seq<Member>, keys: seq<Text>) {
    forall i | 0 <= i < |ms| :: ms[i].key !in keys
  }

  lemma {:induction false} WithoutNothing(ms: seq<Member>, keys: seq<Text>)
    requires Free(ms, keys)
    ensures Without(ms, keys) == ms
  {
    if ms != [] { WithoutNothing(ms[1..], keys); }
  }

  ghost predicate ValidSource(ms: seq<Member>, keys: seq<Text>) {
    Plain(Obj(ms)) && Free(ms, keys)
  }

  ghost predicate ValidPin(pin: Pin, s: Schema) {
    ValidSource(pin.source, PIN_KEYS) && PinFields(pin.source, s)
  }

  ghost predicate ValidNode(node: Node, s: Schema) {
    && ValidSource(node.source, NODE_KEYS) && NodeFields(node.source, s)
    && SafeInt(node.x) && SafeInt(node.y)
    && forall j | 0 <= j < |node.pins| :: ValidPin(node.pins[j], s)
  }

  /** A graph the schema accepts. */
  ghost predicate ValidGraph(g: Graph, s: Schema) {
    && ValidSource(g.metadata, GRAPH_KEYS) && s.graph(g.metadata)
    && forall i | 0 <= i < |g.nodes| :: ValidNode(g.nodes[i], s)
  }

  // ---------------------------------------------------------------------------------------------
  // Identities

  predicate UniquePins(pins: seq<Pin>) {
    forall i, j | 0 <= i < j < |pins| :: PinId(pins[i]) != PinId(pins[j])
  }

  predicate UniquePaths(nodes: seq<Node>) {
    forall i, j | 0 <= i < j < |nodes| :: Path(nodes[i]) != Path(nodes[j])
  }

  /** The index of the graph reports no issue. */
  predicate Unambiguous(g: Graph) {
    UniquePaths(g.nodes) && forall i | 0 <= i < |g.nodes| :: UniquePins(g.nodes[i].pins)
  }

  function FindNode(nodes: seq<Node>, path: Text): (r: Option<Node>)
    ensures r.Some? ==> r.value in nodes && Path(r.value) == path
    ensures r.None? ==> forall i | 0 <= i < |nodes| :: Path(nodes[i]) != path
  {
    if nodes == [] then None
    else if Path(nodes[0]) == path then Some(nodes[0])
    else FindNode(nodes[1..], path)
  }

  function FindPin(pins: seq<Pin>, id: Text): (r: Option<Pin>)
    ensures r.Some? ==> r.value in pins && PinId(r.value) == id
    ensures r.None? ==> forall j | 0 <= j < |pins| :: PinId(pins[j]) != id
  {
    if pins == [] then None
    else if PinId(pins[0]) == id then Some(pins[0])
    else FindPin(pins[1..], id)
  }

  // ---------------------------------------------------------------------------------------------
  // Export

  /** The hash may be any function into word characters; nothing asks it to be injective. */
  ghost predicate WordHash(hash: Text -> Text) {
    forall v: Text :: AllWord(hash(v))
  }

  function NodeAlias(node: Node, hash: Text -> Text): (a: Text) {
    ['n' as int] + hash(TextField(node.source, GUID).GetOr(Path(node)))
  }

  function PinAlias(id: Text, hash: Text -> Text): (a: Text) {
    ['p' as int] + hash(id)
  }

  predicate DistinctPinAliases(pins: seq<Pin>, hash: Text -> Text) {
    forall i, j | 0 <= i < j < |pins| :: PinAlias(PinId(pins[i]), hash) != PinAlias(PinId(pins[j]), hash)
  }

  /** No two nodes share an alias, nor two pins of one node. */
  predicate DistinctAliases(g: Graph, hash: Text -> Text) {
    && (forall i, j | 0 <= i < j < |g.nodes| :: NodeAlias(g.nodes[i], hash) != NodeAlias(g.nodes[j], hash))
    && forall i | 0 <= i < |g.nodes| :: DistinctPinAliases(g.nodes[i].pins, hash)
  }

  const HEADER: Text := Ascii("blueprint v1")
  const GRAPH: Text := Ascii("graph ")
  const NODE: Text := Ascii("node ")
  const SPACES: Text := Ascii("  ")
  const IN: Text := Ascii("in ")
  const OUT: Text := Ascii("out ")
  const OPEN: Text := Ascii("[")
  const CLOSE: Text := Ascii("] ")
  const AT: Text := Ascii("] @")
  const COMMA: Text := Ascii(",")
  const SPACE: Text := Ascii(" ")
  const ARROW: Text := Ascii(" --> ")
  const UNRESOLVED: Text := Ascii("unresolved ")

  function PlaceText(node: Node): (t: Text) {
    AT + (IntText(node.x) + (COMMA + (IntText(node.y) + (SPACE + CarrierJson(Obj(node.source))))))
  }

  function NodeLine(node: Node, hash: Text -> Text): (t: Text) {
    NODE + (NodeAlias(node, hash) + (OPEN + (CarrierJson(Str(node.title)) + PlaceText(node))))
  }

  function PinRest(pin: Pin, hash: Text -> Text): (t: Text) {
    PinAlias(PinId(pin), hash) + (OPEN + (CarrierJson(Str(pin.name)) + (CLOSE + CarrierJson(Obj(pin.source)))))
  }

  function PinLine(pin: Pin, hash: Text -> Text): (t: Text) {
    SPACES + ((if pin.direction.Input? then IN else OUT) + PinRest(pin, hash))
  }

  function PinLines(pins: seq<Pin>, hash: Text -> Text): (lines: seq<Text>)
    ensures |lines| == |pins| && forall j | 0 <= j < |pins| :: lines[j] == PinLine(pins[j], hash)
  {
    seq(|pins|, j requires 0 <= j < |pins| => PinLine(pins[j], hash))
  }

  function NodeLines(nodes: seq<Node>, hash: Text -> Text): (lines: seq<Text>) {
    if nodes == [] then []
    else NodeLines(nodes[..|nodes| - 1], hash) +
         ([NodeLine(nodes[|nodes| - 1], hash)] + PinLines(nodes[|nodes| - 1].pins, hash))
  }

  /** The alias pair of a reference that resolves to a pin of this graph. */
  function Endpoint(nodes: seq<Node>, r: PinRef, hash: Text -> Text): (e: Option<Text>) {
    match r.path
    case None => None
    case Some(path) =>
      match FindNode(nodes, path)
      case None => None
      case Some(node) =>
        if FindPin(node.pins, r.pinId).None? then None
        else Some(NodeAlias(node, hash) + ['.' as int] + PinAlias(r.pinId, hash))
  }

  function RefValue(r: PinRef): (v: Value) {
    Obj((match r.path case None => [] case Some(p) => [Member(NODE_PATH, Str(p))]) + [Member(PIN_ID, Str(r.pinId))])
  }

  function LinkValue(link: Link): (v: Value) {
    Obj([Member(FROM, RefValue(link.start)), Member(TO, RefValue(link.end))])
  }

  function LinkLine(nodes: seq<Node>, link: Link, hash: Text -> Text): (t: Text) {
    match (Endpoint(nodes, link.start, hash), Endpoint(nodes, link.end, hash))
    case (Some(a), Some(b)) => a + (ARROW + b)
    case _ => UNRESOLVED + CarrierJson(LinkValue(link))
  }

  function LinkLines(nodes: seq<Node>, links: seq<Link>, hash: Text -> Text): (lines: seq<Text>)
    ensures |lines| == |links| && forall k | 0 <= k < |links| :: lines[k] == LinkLine(nodes, links[k], hash)
  {
    seq(|links|, k requires 0 <= k < |links| => LinkLine(nodes, links[k], hash))
  }

  function ExportLines(g: Graph, hash: Text -> Text): (lines: seq<Text>) {
    [HEADER, GRAPH + CarrierJson(Obj(g.metadata))] + (NodeLines(g.nodes, hash) + LinkLines(g.nodes, g.links, hash))
  }

  function JoinLines(lines: seq<Text>): (t: Text)
    requires lines != []
  {
    if |lines| == 1 then lines[0] else lines[0] + ([NEWLINE] + JoinLines(lines[1..]))
  }

  /** `exportBlueprintDiagram`: refused for ambiguous identities and for alias collisions. */
  function Export(g: Graph, hash: Text -> Text): (r: Option<Text>) {
    if Unambiguous(g) && DistinctAliases(g, hash) then Some(JoinLines(ExportLines(g, hash)) + [NEWLINE]) else None
  }

  // ---------------------------------------------------------------------------------------------
  // Parsing

  function BreakAt(t: Text): (n: nat)
    ensures n <= |t| && (forall i | 0 <= i < n :: t[i] != NEWLINE) && (n < |t| ==> t[n] == NEWLINE)
  {
    if t == [] || t[0] == NEWLINE then 0 else 1 + BreakAt(t[1..])
  }

  function DropReturn(t: Text): (r: Text) {
    if t != [] && t[|t| - 1] == RETURN then t[..|t| - 1] else t
  }

  /** `split(/\r?\n/u)` */
  function SplitLines(t: Text): (lines: seq<Text>)
    ensures lines != []
  {
    var n := BreakAt(t);
    if n == |t| then [t] else [DropReturn(t[..n])] + SplitLines(t[n + 1..])
  }

  datatype NodeMatch = NodeMatch(id: Text, title: Text, x: int, y: int, tail: Text)
  datatype PinMatch = PinMatch(direction: Direction, id: Text, name: Text, tail: Text)

  /** The node pattern after its title. */
  function MatchPlace(id: Text, title: Text, t: Text): (r: Option<NodeMatch>) {
    var t1 :- Expect(AT, t);
    var (x, t2) :- ScanInt(t1);
    var t3 :- Expect(COMMA, t2);
    var (y, t4) :- ScanInt(t3);
    var tail :- Expect(SPACE, t4);
    if IsTail(tail) then Some(NodeMatch(id, title, x, y, tail)) else None
  }

  /** The node pattern. */
  function MatchNode(line: Text): (r: Option<NodeMatch>) {
    var t1 :- Expect(NODE, line);
    var (id, t2) :- ScanWord(t1);
    var t3 :- Expect(OPEN, t2);
    var (title, t4) :- ScanString(t3);
    MatchPlace(id, title, t4)
  }

  /** The pin pattern after its name. */
  function MatchPinTail(direction: Direction, id: Text, name: Text, t: Text): (r: Option<PinMatch>) {
    var tail :- Expect(CLOSE, t);
    if IsTail(tail) then Some(PinMatch(direction, id, name, tail)) else None
  }

  /** The pin pattern after its direction word. */
  function MatchPinRest(direction: Direction, t: Text): (r: Option<PinMatch>) {
    var (id, t1) :- ScanWord(t);
    var t2 :- Expect(OPEN, t1);
    var (name, t3) :- ScanString(t2);
    MatchPinTail(direction, id, name, t3)
  }

  function MatchPin(line: Text): (r: Option<PinMatch>) {
    var t :- Expect(SPACES, line);
    match Expect(IN, t)
    case Some(rest) => MatchPinRest(Input, rest)
    case None =>
      var rest :- Expect(OUT, t);
      MatchPinRest(Output, rest)
  }

  /** The wire pattern. */
  function MatchWire(line: Text): (r: Option<(Text, Text)>) {
    var (a, t1) :- ScanEndpoint(line);
    var t2 :- Expect(ARROW, t1);
    var (b, t3) :- ScanEndpoint(t2);
    if t3 == [] then Some((a, b)) else None
  }

  function ParseObjectText(t: Text): (r: Option<seq<Member>>) {
    match Parse(t)
    case Some(Obj(ms)) => Some(ms)
    case _ => None
  }

  function ParseStringText(t: Text): (r: Option<Text>) {
    match Parse(t)
    case Some(Str(s)) => Some(s)
    case _ => None
  }

  function DecodeRef(v: Value): (r: Option<PinRef>) {
    match v
    case Obj(ms) =>
      if TextField(ms, PIN_ID).Some? && OptionalText(ms, NODE_PATH)
      then Some(PinRef(TextField(ms, NODE_PATH), TextField(ms, PIN_ID).value))
      else None
    case _ => None
  }

  function DecodeLink(ms: seq<Member>): (r: Option<Link>) {
    var start :- Get(ms, FROM);
    var end :- Get(ms, TO);
    var a :- DecodeRef(start);
    var b :- DecodeRef(end);
    Some(Link(a, b))
  }

  /**
   * The parser between two lines. The current node is always the last one pushed, so the reference
   * to it is only a flag.
   */
  datatype State = State(
    nodes: seq<Node>,
    links: seq<Link>,
    endpoints: map<Text, PinRef>,
    current: bool,
    currentId: Text,
    ids: set<Text>)

  const START: State := State([], [], map[], false, [], {})

  function StepNode(state: State, m: NodeMatch, s: Schema): (r: Option<State>) {
    if m.id in state.ids then None
    else
      var ms :- ParseObjectText(m.tail);
      var title :- ParseStringText(m.title);
      var source := Without(ms, NODE_KEYS);
      if NodeFields(source, s) && SafeInt(m.x) && SafeInt(m.y)
      then Some(State(state.nodes + [Node(source, title, m.x, m.y, [])], state.links, state.endpoints, true, m.id,
                      state.ids + {m.id}))
      else None
  }

  function StepPin(state: State, m: PinMatch, s: Schema): (r: Option<State>)
    requires state.nodes != []
  {
    var ms :- ParseObjectText(m.tail);
    var name :- ParseStringText(m.name);
    var source := Without(ms, PIN_KEYS);
    var key := state.currentId + ['.' as int] + m.id;
    if !PinFields(source, s) || key in state.endpoints then None
    else
      var n := |state.nodes| - 1;
      var node := state.nodes[n];
      var pin := Pin(source, name, m.direction);
      Some(state.(nodes := state.nodes[..n] + [node.(pins := node.pins + [pin])],
                  endpoints := state.endpoints[key := PinRef(Some(Path(node)), PinId(pin))]))
  }

  function StepWire(state: State, a: Text, b: Text): (r: Option<State>) {
    if a in state.endpoints && b in state.endpoints
    then Some(state.(links := state.links + [Link(state.endpoints[a], state.endpoints[b])], current := false))
    else None
  }

  function StepUnresolved(state: State, line: Text): (r: Option<State>) {
    var rest :- Expect(UNRESOLVED, line);
    var ms :- ParseObjectText(rest);
    var link :- DecodeLink(ms);
    Some(state.(links := state.links + [link], current := false))
  }

  /** One line; `None` is any of the parser's errors. */
  function Step(state: State, line: Text, s: Schema): (r: Option<State>) {
    match MatchNode(line)
    case Some(m) => StepNode(state, m, s)
    case None =>
      match MatchPin(line)
      case Some(m) => if state.current && state.nodes != [] then StepPin(state, m, s) else None
      case None =>
        match MatchWire(line)
        case Some((a, b)) => StepWire(state, a, b)
        case None => StepUnresolved(state, line)
  }

  /** The parser's loop over the lines, for the step it takes on each. */
  function Run(state: State, lines: seq<Text>, step: (State, Text) -> Option<State>): (r: Option<State>)
    decreases lines
  {
    if lines == [] then Some(state)
    else
      match step(state, lines[0])
      case None => None
      case Some(next) => Run(next, lines[1..], step)
  }

  function Stepper(s: Schema): (step: (State, Text) -> Option<State>) {
    (state: State, line: Text) => Step(state, line, s)
  }

  function DecodeGraph(ms: seq<Member>, nodes: seq<Node>, links: seq<Link>, s: Schema): (r: Option<Graph>) {
    var g := Graph(Without(ms, GRAPH_KEYS), nodes, links);
    if s.graph(g.metadata) && Unambiguous(g) then Some(g) else None
  }

  function ParseLines(lines: seq<Text>, s: Schema): (r: Option<Graph>)
    requires lines != []
  {
    if lines[0] != HEADER || |lines| < 2 then None
    else
      var head :- Expect(GRAPH, lines[1]);
      var ms :- ParseObjectText(head);
      var state :- Run(START, lines[2..], Stepper(s));
      DecodeGraph(ms, state.nodes, state.links, s)
  }

  /** `parseBlueprintDiagram`. */
  function ParseDiagram(text: Text, s: Schema): (r: Option<Graph>) {
    ParseLines(SplitLines(TrimEnd(text)), s)
  }
}
