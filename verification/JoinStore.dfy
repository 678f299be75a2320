/**
 * The in-memory shared index of the differential join: strings are interned into numbered segments
 * and id columns are remapped, yet it must mean what a store of plain strings means.
 */
module JoinStore {
  import opened Basics
  import opened Utf16
  import opened Wtf8

  datatype Segment = Segment(start: nat, count: nat, domain: Text)

  /** A source column, its bytes already decoded. */
  datatype Column =
    | Strings(name: Text, domain: Text, strings: seq<Text>)
    | StringIds(name: Text, domain: Text, ids: seq<nat>)
    | Numbers(name: Text, data: seq<nat>)

  datatype Layer = Layer(columns: map<Text, seq<nat>>, segmentCount: nat)

  datatype State = State(
    values: seq<Text>,
    ids: map<Text, nat>,
    segments: seq<Segment>,
    layers: map<Text, Layer>,
    active: map<Text, Text>)

  const EMPTY: State := State([], map[], [], map[], map[])

  // ---------------------------------------------------------------------------------------------
  // Fresh strings

  /** `Buffer.compare(a, b) < 0` */
  predicate LessBytes(a: seq<Byte>, b: seq<Byte>) {
    b != [] && (a == [] || a[0] < b[0] || (a[0] == b[0] && LessBytes(a[1..], b[1..])))
  }

  predicate Less(a: Text, b: Text) {
    LessBytes(Encode(a), Encode(b))
  }

  lemma LessBytesOrder(a: seq<Byte>, b: seq<Byte>)
    ensures LessBytes(a, b) || a == b || LessBytes(b, a)
    ensures !(LessBytes(a, b) && LessBytes(b, a)) && !LessBytes(a, a)
  {
    if a != [] && b != [] && a[0] == b[0] {
      LessBytesOrder(a[1..], b[1..]);
      assert a == [a[0]] + a[1..] && b == [b[0]] + b[1..];
    }
    if a != [] { LessBytesOrder(a[1..], a[1..]); }
  }

  lemma LessBytesTransitive(a: seq<Byte>, b: seq<Byte>, c: seq<Byte>)
    requires LessBytes(a, b) && LessBytes(b, c)
    ensures LessBytes(a, c)
  {
    if a != [] && a[0] == b[0] && b[0] == c[0] {
      LessBytesTransitive(a[1..], b[1..], c[1..]);
    }
  }

  ghost predicate Sorted(s: seq<Text>) {
    forall i, j | 0 <= i < j < |s| :: Less(s[i], s[j])
  }

  /** The strings not known yet, each once. */
  function Unknown(ids: map<Text, nat>, strings: seq<Text>): (r: seq<Text>) {
    if strings == [] then []
    else
      var n := |strings| - 1;
      var r := Unknown(ids, strings[..n]);
      if strings[n] in ids || strings[n] in r then r else r + [strings[n]]
  }

  function InsertText(s: Text, sorted: seq<Text>): (r: seq<Text>) {
    if sorted == [] then [s]
    else if Less(sorted[0], s) then [sorted[0]] + InsertText(s, sorted[1..])
    else [s] + sorted
  }

  function SortTexts(s: seq<Text>): (r: seq<Text>) {
    if s == [] then [] else InsertText(s[0], SortTexts(s[1..]))
  }

  ghost predicate Distinct(s: seq<Text>) {
    forall i, j | 0 <= i < j < |s| :: s[i] != s[j]
  }

  lemma {:induction false} UnknownFacts(ids: map<Text, nat>, strings: seq<Text>)
    ensures forall x :: x in Unknown(ids, strings) <==> x in strings && x !in ids
    ensures Distinct(Unknown(ids, strings))
  {
    if strings != [] {
      var n := |strings| - 1;
      UnknownFacts(ids, strings[..n]);
      assert strings == strings[..n] + [strings[n]];
    }
  }

  lemma {:induction false} InsertTextFacts(s: Text, sorted: seq<Text>)
    ensures |InsertText(s, sorted)| == |sorted| + 1
    ensures forall x :: x in InsertText(s, sorted) <==> x == s || x in sorted
  {
    if sorted != [] {
      InsertTextFacts(s, sorted[1..]);
      assert forall x :: x in sorted <==> x == sorted[0] || x in sorted[1..];
    }
  }

  lemma {:induction false} SortTextsFacts(s: seq<Text>)
    ensures |SortTexts(s)| == |s| && forall x :: x in SortTexts(s) <==> x in s
  {
    if s != [] {
      SortTextsFacts(s[1..]);
      InsertTextFacts(s[0], SortTexts(s[1..]));
      assert forall x :: x in s <==> x == s[0] || x in s[1..];
    }
  }

  lemma {:induction false} InsertTextSorts(s: Text, sorted: seq<Text>)
    requires Sorted(sorted) && s !in sorted
    ensures Sorted(InsertText(s, sorted))
  {
    if sorted != [] {
      var head := sorted[0];
      LessBytesOrder(Encode(head), Encode(s));
      if Encode(head) == Encode(s) { EncodeInjective(head, s); }
      if Less(head, s) {
        InsertTextSorts(s, sorted[1..]);
        var r := InsertText(s, sorted[1..]);
        InsertTextFacts(s, sorted[1..]);
        forall i | 0 <= i < |r| ensures Less(head, r[i]) {
          assert r[i] in r;
          if r[i] != s {
            var k :| 0 <= k < |sorted[1..]| && sorted[1..][k] == r[i];
            assert r[i] == sorted[k + 1];
          }
        }
      } else {
        forall i | 0 <= i < |sorted| ensures Less(s, sorted[i]) {
          if i > 0 { LessBytesTransitive(Encode(s), Encode(head), Encode(sorted[i])); }
        }
      }
    }
  }

  /** Distinct strings have distinct bytes, so sorting by bytes is strict. */
  lemma {:induction false} SortTextsSorts(s: seq<Text>)
    requires Distinct(s)
    ensures Sorted(SortTexts(s))
  {
    if s != [] {
      SortTextsSorts(s[1..]);
      SortTextsFacts(s[1..]);
      InsertTextSorts(s[0], SortTexts(s[1..]));
    }
  }

  lemma SortedDistinct(sorted: seq<Text>)
    requires Sorted(sorted)
    ensures Distinct(sorted)
  {
    forall i, j | 0 <= i < j < |sorted| ensures sorted[i] != sorted[j] {
      LessBytesOrder(Encode(sorted[i]), Encode(sorted[j]));
    }
  }

  function Fresh(ids: map<Text, nat>, strings: seq<Text>): (r: seq<Text>) {
    SortTexts(Unknown(ids, strings))
  }

  lemma FreshFacts(ids: map<Text, nat>, strings: seq<Text>)
    ensures Sorted(Fresh(ids, strings)) && Distinct(Fresh(ids, strings))
    ensures forall x :: x in Fresh(ids, strings) <==> x in strings && x !in ids
  {
    UnknownFacts(ids, strings);
    SortTextsSorts(Unknown(ids, strings));
    SortTextsFacts(Unknown(ids, strings));
    SortedDistinct(Fresh(ids, strings));
  }

  // ---------------------------------------------------------------------------------------------
  // Interning

  function Assign(ids: map<Text, nat>, added: seq<Text>, start: nat): (r: map<Text, nat>) {
    if added == [] then ids
    else Assign(ids, added[..|added| - 1], start)[added[|added| - 1] := start + |added| - 1]
  }

  /** An unknown string would become 0, as in a typed array. */
  function IdsOf(ids: map<Text, nat>, strings: seq<Text>): (r: seq<nat>) {
    seq(|strings|, i requires 0 <= i < |strings| => if strings[i] in ids then ids[strings[i]] else 0)
  }

  function Interned(state: State, domain: Text, strings: seq<Text>): (next: State) {
    var added := Fresh(state.ids, strings);
    if added == [] then state
    else state.(values := state.values + added,
                ids := Assign(state.ids, added, |state.values|),
                segments := state.segments + [Segment(|state.values|, |added|, domain)])
  }

  function InternedIds(state: State, domain: Text, strings: seq<Text>): (r: seq<nat>) {
    IdsOf(Interned(state, domain, strings).ids, strings)
  }

  /** `strings`: every id must be one of the store's. */
  function Lookup(values: seq<Text>, selected: seq<nat>): (r: Option<seq<Text>>) {
    if forall i | 0 <= i < |selected| :: selected[i] < |values|
    then Some(seq(|selected|, i requires 0 <= i < |selected| && selected[i] < |values| => values[selected[i]]))
    else None
  }

  /** Values are distinct and `ids` is their inverse. */
  ghost predicate Inverse(values: seq<Text>, ids: map<Text, nat>) {
    && (forall i | 0 <= i < |values| :: values[i] in ids && ids[values[i]] == i)
    && forall s | s in ids :: ids[s] < |values| && values[ids[s]] == s
  }

  /** The segments cover the first `end` values in order, without gaps. */
  ghost predicate Tiles(segments: seq<Segment>, end: nat) {
    if segments == [] then end == 0
    else
      var last := segments[|segments| - 1];
      last.count > 0 && last.start + last.count == end && Tiles(segments[..|segments| - 1], last.start)
  }

  /** Every segment inside the values, strictly sorted. */
  ghost predicate SegmentsSorted(segments: seq<Segment>, values: seq<Text>) {
    forall k | 0 <= k < |segments| ::
      segments[k].start + segments[k].count <= |values| &&
      Sorted(values[segments[k].start..segments[k].start + segments[k].count])
  }

  ghost predicate Valid(state: State) {
    && Inverse(state.values, state.ids)
    && Tiles(state.segments, |state.values|)
    && SegmentsSorted(state.segments, state.values)
  }

  /** A later state: more strings, and every id kept. */
  ghost predicate Grown(before: State, after: State) {
    before.values <= after.values && before.segments <= after.segments &&
    forall s | s in before.ids :: s in after.ids && after.ids[s] == before.ids[s]
  }

  lemma {:induction false} AssignInverse(values: seq<Text>, ids: map<Text, nat>, added: seq<Text>)
    requires Inverse(values, ids) && forall i | 0 <= i < |added| :: added[i] !in ids
    requires Distinct(added)
    ensures Inverse(values + added, Assign(ids, added, |values|))
    ensures forall s | s in ids :: s in Assign(ids, added, |values|) && Assign(ids, added, |values|)[s] == ids[s]
  {
    if added == [] {
      assert values + added == values;
    } else {
      var n := |added| - 1;
      var init := added[..n];
      AssignInverse(values, ids, init);
      var some, now := values + init, Assign(ids, added, |values|);
      assert values + added == some + [added[n]];
      forall i | 0 <= i < |some| ensures some[i] != added[n] {
        assert i < |values| ==> values[i] in ids;
      }
      assert added[n] !in Assign(ids, init, |values|);
    }
  }

  lemma SegmentsStay(segments: seq<Segment>, values: seq<Text>, added: seq<Text>, domain: Text)
    requires SegmentsSorted(segments, values) && Sorted(added)
    ensures SegmentsSorted(segments + [Segment(|values|, |added|, domain)], values + added)
  {
    var all, more := segments + [Segment(|values|, |added|, domain)], values + added;
    forall k | 0 <= k < |all|
      ensures all[k].start + all[k].count <= |more| && Sorted(more[all[k].start..all[k].start + all[k].count])
    {
      var from, to := all[k].start, all[k].start + all[k].count;
      if k < |segments| {
        assert more[from..to] == values[from..to];
      } else {
        assert more[from..to] == added;
      }
    }
  }

  lemma InternValid(state: State, domain: Text, strings: seq<Text>)
    requires Valid(state)
    ensures Valid(Interned(state, domain, strings)) && Grown(state, Interned(state, domain, strings))
  {
    var added := Fresh(state.ids, strings);
    var next := Interned(state, domain, strings);
    if added != [] {
      FreshFacts(state.ids, strings);
      AssignInverse(state.values, state.ids, added);
      SegmentsStay(state.segments, state.values, added, domain);
      assert next.segments[..|next.segments| - 1] == state.segments;
    }
  }

  lemma InternKnows(state: State, domain: Text, strings: seq<Text>, x: Text)
    requires Valid(state)
    ensures x in Interned(state, domain, strings).values <==> x in state.values || x in strings
    ensures x in Interned(state, domain, strings).ids <==> x in state.values || x in strings
  {
    var added := Fresh(state.ids, strings);
    var next := Interned(state, domain, strings);
    InternValid(state, domain, strings);
    FreshFacts(state.ids, strings);
    assert next.values == state.values + added;
    assert x in next.values <==> x in state.values || x in added;
    ValuesAreKeys(state, x);
    ValuesAreKeys(next, x);
  }

  lemma ValuesAreKeys(state: State, x: Text)
    requires Valid(state)
    ensures x in state.ids <==> x in state.values
  {
    if x in state.values {
      var i :| 0 <= i < |state.values| && state.values[i] == x;
    }
    if x in state.ids { assert state.values[state.ids[x]] == x; }
  }

  lemma InternLooksUp(state: State, domain: Text, strings: seq<Text>)
    requires Valid(state)
    ensures Lookup(Interned(state, domain, strings).values, InternedIds(state, domain, strings)) == Some(strings)
  {
    var next := Interned(state, domain, strings);
    InternValid(state, domain, strings);
    forall i | 0 <= i < |strings| ensures strings[i] in next.ids {
      InternKnows(state, domain, strings, strings[i]);
    }
    IdsLookUp(next.values, next.ids, strings);
  }

  /** Interning keeps the store valid, keeps every id, and its ids look up to the strings given. */
  lemma InternKeeps(state: State, domain: Text, strings: seq<Text>)
    requires Valid(state)
    ensures Valid(Interned(state, domain, strings)) && Grown(state, Interned(state, domain, strings))
    ensures Interned(state, domain, strings).layers == state.layers
    ensures Interned(state, domain, strings).active == state.active
    ensures Lookup(Interned(state, domain, strings).values, InternedIds(state, domain, strings)) == Some(strings)
  {
    InternValid(state, domain, strings);
    InternLooksUp(state, domain, strings);
  }

  lemma IdsLookUp(values: seq<Text>, ids: map<Text, nat>, strings: seq<Text>)
    requires Inverse(values, ids) && forall i | 0 <= i < |strings| :: strings[i] in ids
    ensures Lookup(values, IdsOf(ids, strings)) == Some(strings)
  {
    LookupIs(values, IdsOf(ids, strings), strings);
  }

  lemma LookupIs(values: seq<Text>, selected: seq<nat>, texts: seq<Text>)
    requires |selected| == |texts|
    requires forall i | 0 <= i < |selected| :: selected[i] < |values| && values[selected[i]] == texts[i]
    ensures Lookup(values, selected) == Some(texts)
  {
    assert Lookup(values, selected).value == texts;
  }

  /** What looked up once looks up the same for ever. */
  lemma LookupStays(before: State, after: State, selected: seq<nat>)
    requires Grown(before, after) && Lookup(before.values, selected).Some?
    ensures Lookup(after.values, selected) == Lookup(before.values, selected)
  {
    assert Lookup(after.values, selected).value == Lookup(before.values, selected).value;
  }

  // ---------------------------------------------------------------------------------------------
  // Publishing

  /** The strings of a domain, in the order the source lists them. */
  function Table(columns: seq<Column>, domain: Text): (t: seq<Text>) {
    if columns == [] then []
    else
      var n := |columns| - 1;
      Table(columns[..n], domain) +
      (if columns[n].Strings? && columns[n].domain == domain then columns[n].strings else [])
  }

  /** The domains that have strings, each once, in order of appearance. */
  function Domains(columns: seq<Column>): (d: seq<Text>) {
    if columns == [] then []
    else
      var n := |columns| - 1;
      var d := Domains(columns[..n]);
      if columns[n].Strings? && columns[n].domain !in d then d + [columns[n].domain] else d
  }

  const STARTS: Text := Ascii(".starts")

  /** Offsets of string columns are not stored: `<domain>.starts`. */
  predicate IsStarts(name: Text, domains: seq<Text>) {
    |name| >= |STARTS| && name[|name| - |STARTS|..] == STARTS && name[..|name| - |STARTS|] in domains
  }

  function Selected(columns: seq<Column>, domains: seq<Text>): (r: seq<Column>)
    ensures forall c | c in r :: !c.Strings?
  {
    if columns == [] then []
    else
      var n := |columns| - 1;
      Selected(columns[..n], domains) +
      (if columns[n].Strings? || IsStarts(columns[n].name, domains) then [] else [columns[n]])
  }

  /** One id table per domain, interned in the order of the domains. */
  function InternTables(state: State, columns: seq<Column>, domains: seq<Text>): (r: (State, map<Text, seq<nat>>)) {
    if domains == [] then (state, map[])
    else
      var d := domains[|domains| - 1];
      var (before, mappings) := InternTables(state, columns, domains[..|domains| - 1]);
      (Interned(before, d, Table(columns, d)), mappings[d := InternedIds(before, d, Table(columns, d))])
  }

  /** A stored column; a remapped id column without its table throws when it has an id. */
  function StoredData(c: Column, remap: bool, mappings: map<Text, seq<nat>>): (r: Option<seq<nat>>) {
    match c
    case Numbers(_, data) => Some(data)
    case Strings(_, _, _) => Some([])
    case StringIds(_, domain, ids) =>
      if !remap then Some(ids)
      else if ids == [] then Some([])
      else if domain !in mappings then None
      else
        var m := mappings[domain];
        Some(seq(|ids|, i requires 0 <= i < |ids| => if ids[i] < |m| then m[ids[i]] else 0))
  }

  /** Columns by name; a later column of the same name replaces an earlier one. */
  function StoredColumns(selected: seq<Column>, remap: bool, mappings: map<Text, seq<nat>>)
    : (r: Option<map<Text, seq<nat>>>)
  {
    if selected == [] then Some(map[])
    else
      var n := |selected| - 1;
      var before :- StoredColumns(selected[..n], remap, mappings);
      var data :- StoredData(selected[n], remap, mappings);
      Some(before[selected[n].name := data])
  }

  datatype Entry = Entry(name: Text, key: Text, source: seq<Column>)

  /** `publish`: whether it returned, and the store it leaves; a throw comes after the interning. */
  function Published(state: State, entry: Entry, remap: bool): (r: (State, bool)) {
    var domains := Domains(entry.source);
    var (next, mappings) := if remap then InternTables(state, entry.source, domains) else (state, map[]);
    match StoredColumns(Selected(entry.source, domains), remap, mappings)
    case None => (next, false)
    case Some(columns) =>
      (next.(layers := next.layers[entry.key := Layer(columns, |next.segments|)],
             active := next.active[entry.name := entry.key]), true)
  }

  function PublishedAll(state: State, entries: seq<Entry>): (r: (State, bool))
    decreases entries
  {
    if entries == [] then (state, true)
    else
      var (next, ok) := Published(state, entries[0], true);
      if ok then PublishedAll(next, entries[1..]) else (next, false)
  }

  function Names(removed: seq<Text>): (r: set<Text>) {
    set i | 0 <= i < |removed| :: removed[i]
  }

  function Batched(state: State, entries: seq<Entry>, removed: seq<Text>): (r: State) {
    var (next, ok) := PublishedAll(state, entries);
    if ok then next.(active := next.active - Names(removed)) else next
  }

  datatype Op =
    | InternOp(domain: Text, strings: seq<Text>)
    | PublishOp(entry: Entry, remap: bool)
    | BatchOp(entries: seq<Entry>, removed: seq<Text>)

  function Step(state: State, op: Op): (r: State) {
    match op
    case InternOp(domain, strings) => Interned(state, domain, strings)
    case PublishOp(entry, remap) => Published(state, entry, remap).0
    case BatchOp(entries, removed) => Batched(state, entries, removed)
  }

  function Run(state: State, ops: seq<Op>): (r: State)
    decreases ops
  {
    if ops == [] then state else Run(Step(state, ops[0]), ops[1..])
  }

  // ---------------------------------------------------------------------------------------------
  // The plain store it stands for: no ids, no segments, only strings

  /** A remapped column as texts (`None` for an id outside its table), any other column as numbers. */
  datatype Meaning = Texts(texts: seq<Option<Text>>) | Data(data: seq<nat>)

  datatype PlainStore = PlainStore(layers: map<Text, map<Text, Meaning>>, active: map<Text, Text>)

  const PLAIN_EMPTY: PlainStore := PlainStore(map[], map[])

  function PlainColumn(columns: seq<Column>, domains: seq<Text>, c: Column, remap: bool): (r: Option<Meaning>) {
    match c
    case Numbers(_, data) => Some(Data(data))
    case Strings(_, _, _) => Some(Data([]))
    case StringIds(_, domain, ids) =>
      if !remap then Some(Data(ids))
      else if ids != [] && domain !in domains then None
      else
        var t := Table(columns, domain);
        Some(Texts(seq(|ids|, i requires 0 <= i < |ids| => if ids[i] < |t| then Some(t[ids[i]]) else None)))
  }

  function PlainColumns(columns: seq<Column>, domains: seq<Text>, selected: seq<Column>, remap: bool)
    : (r: Option<map<Text, Meaning>>)
  {
    if selected == [] then Some(map[])
    else
      var n := |selected| - 1;
      var before :- PlainColumns(columns, domains, selected[..n], remap);
      var m :- PlainColumn(columns, domains, selected[n], remap);
      Some(before[selected[n].name := m])
  }

  function PlainPublished(plain: PlainStore, entry: Entry, remap: bool): (r: (PlainStore, bool)) {
    var domains := Domains(entry.source);
    match PlainColumns(entry.source, domains, Selected(entry.source, domains), remap)
    case None => (plain, false)
    case Some(columns) =>
      (PlainStore(plain.layers[entry.key := columns], plain.active[entry.name := entry.key]), true)
  }

  function PlainPublishedAll(plain: PlainStore, entries: seq<Entry>): (r: (PlainStore, bool))
    decreases entries
  {
    if entries == [] then (plain, true)
    else
      var (next, ok) := PlainPublished(plain, entries[0], true);
      if ok then PlainPublishedAll(next, entries[1..]) else (next, false)
  }

  function PlainStep(plain: PlainStore, op: Op): (r: PlainStore) {
    match op
    case InternOp(_, _) => plain
    case PublishOp(entry, remap) => PlainPublished(plain, entry, remap).0
    case BatchOp(entries, removed) =>
      var (next, ok) := PlainPublishedAll(plain, entries);
      if ok then next.(active := next.active - Names(removed)) else next
  }

  function PlainRun(plain: PlainStore, ops: seq<Op>): (r: PlainStore)
    decreases ops
  {
    if ops == [] then plain else PlainRun(PlainStep(plain, ops[0]), ops[1..])
  }

  // ---------------------------------------------------------------------------------------------
  // The store means the plain store

  ghost predicate ColumnMeans(values: seq<Text>, data: seq<nat>, m: Meaning) {
    match m
    case Data(d) => data == d
    case Texts(texts) =>
      |data| == |texts| && forall i | 0 <= i < |texts| ::
        match texts[i]
        case Some(s) => data[i] < |values| && values[data[i]] == s
        case None => data[i] == 0
  }

  ghost predicate ColumnsMean(values: seq<Text>, columns: map<Text, seq<nat>>, plain: map<Text, Meaning>) {
    columns.Keys == plain.Keys && forall c | c in plain :: ColumnMeans(values, columns[c], plain[c])
  }

  ghost predicate Means(state: State, plain: PlainStore) {
    && state.layers.Keys == plain.layers.Keys && state.active == plain.active
    && forall key | key in plain.layers :: ColumnsMean(state.values, state.layers[key].columns, plain.layers[key])
  }

  lemma GrownTransitive(a: State, b: State, c: State)
    requires Grown(a, b) && Grown(b, c)
    ensures Grown(a, c)
  {
  }

  lemma ColumnsStay(values: seq<Text>, more: seq<Text>, columns: map<Text, seq<nat>>, plain: map<Text, Meaning>)
    requires values <= more && ColumnsMean(values, columns, plain)
    ensures ColumnsMean(more, columns, plain)
  {
    forall c | c in plain ensures ColumnMeans(more, columns[c], plain[c]) {
      assert ColumnMeans(values, columns[c], plain[c]);
    }
  }

  /** Growing the store changes no published layer. */
  lemma MeansStays(before: State, after: State, plain: PlainStore)
    requires Grown(before, after) && Means(before, plain)
    requires after.layers == before.layers && after.active == before.active
    ensures Means(after, plain)
  {
    forall key | key in plain.layers
      ensures ColumnsMean(after.values, after.layers[key].columns, plain.layers[key])
    {
      ColumnsStay(before.values, after.values, before.layers[key].columns, plain.layers[key]);
    }
  }

  /** Every domain's id table looks up to its strings. */
  ghost predicate TablesRead(values: seq<Text>, columns: seq<Column>, domains: seq<Text>,
                             mappings: map<Text, seq<nat>>)
  {
    && (forall d :: d in mappings <==> d in domains)
    && forall d | d in mappings :: Lookup(values, mappings[d]) == Some(Table(columns, d))
  }

  lemma {:induction false} TablesIntern(state: State, columns: seq<Column>, domains: seq<Text>)
    requires Valid(state)
    ensures var (next, mappings) := InternTables(state, columns, domains);
            Valid(next) && Grown(state, next) && next.layers == state.layers && next.active == state.active &&
            TablesRead(next.values, columns, domains, mappings)
  {
    if domains != [] {
      var n := |domains| - 1;
      var d := domains[n];
      var (before, mappings) := InternTables(state, columns, domains[..n]);
      TablesIntern(state, columns, domains[..n]);
      InternKeeps(before, d, Table(columns, d));
      var next := Interned(before, d, Table(columns, d));
      GrownTransitive(state, before, next);
      forall x | x in mappings ensures Lookup(next.values, mappings[x]) == Some(Table(columns, x)) {
        LookupStays(before, next, mappings[x]);
      }
      assert domains == domains[..n] + [d];
    }
  }

  lemma StoredMeans(values: seq<Text>, columns: seq<Column>, domains: seq<Text>, mappings: map<Text, seq<nat>>,
                    c: Column, remap: bool)
    requires remap ==> TablesRead(values, columns, domains, mappings)
    ensures StoredData(c, remap, mappings).Some? <==> PlainColumn(columns, domains, c, remap).Some?
    ensures StoredData(c, remap, mappings).Some? ==>
      ColumnMeans(values, StoredData(c, remap, mappings).value, PlainColumn(columns, domains, c, remap).value)
  {
    if c.StringIds? && remap && c.ids != [] && c.domain in mappings {
      var m, t := mappings[c.domain], Table(columns, c.domain);
      assert Lookup(values, m) == Some(t);
      assert |m| == |t| && forall i | 0 <= i < |m| :: m[i] < |values| && values[m[i]] == t[i];
    }
  }

  lemma {:induction false} StoredColumnsMean(values: seq<Text>, columns: seq<Column>, domains: seq<Text>,
                                             mappings: map<Text, seq<nat>>, selected: seq<Column>, remap: bool)
    requires remap ==> TablesRead(values, columns, domains, mappings)
    ensures StoredColumns(selected, remap, mappings).Some? <==> PlainColumns(columns, domains, selected, remap).Some?
    ensures StoredColumns(selected, remap, mappings).Some? ==>
      ColumnsMean(values, StoredColumns(selected, remap, mappings).value,
                  PlainColumns(columns, domains, selected, remap).value)
  {
    if selected != [] {
      var n := |selected| - 1;
      StoredColumnsMean(values, columns, domains, mappings, selected[..n], remap);
      StoredMeans(values, columns, domains, mappings, selected[n], remap);
    }
  }

  /** One publish: the layer means its source, and no earlier layer changes. */
  lemma PublishMeans(state: State, plain: PlainStore, entry: Entry, remap: bool)
    requires Valid(state) && Means(state, plain)
    ensures var (next, ok) := Published(state, entry, remap);
            Valid(next) && Grown(state, next) && Means(next, PlainPublished(plain, entry, remap).0) &&
            ok == PlainPublished(plain, entry, remap).1
  {
    var domains := Domains(entry.source);
    var selected := Selected(entry.source, domains);
    var (next, mappings) := if remap then InternTables(state, entry.source, domains) else (state, map[]);
    if remap { TablesIntern(state, entry.source, domains); }
    MeansStays(state, next, plain);
    StoredColumnsMean(next.values, entry.source, domains, mappings, selected, remap);
  }

  lemma {:induction false} PublishAllMeans(state: State, plain: PlainStore, entries: seq<Entry>)
    requires Valid(state) && Means(state, plain)
    ensures var (next, ok) := PublishedAll(state, entries);
            Valid(next) && Grown(state, next) && Means(next, PlainPublishedAll(plain, entries).0) &&
            ok == PlainPublishedAll(plain, entries).1
    decreases entries
  {
    if entries != [] {
      var next, later := Published(state, entries[0], true).0, PlainPublished(plain, entries[0], true).0;
      PublishMeans(state, plain, entries[0], true);
      if Published(state, entries[0], true).1 {
        PublishAllMeans(next, later, entries[1..]);
        GrownTransitive(state, next, PublishedAll(next, entries[1..]).0);
      }
    }
  }

  /** Every operation keeps the store valid, its ids, and its meaning. */
  lemma StepMeans(state: State, plain: PlainStore, op: Op)
    requires Valid(state) && Means(state, plain)
    ensures Valid(Step(state, op)) && Grown(state, Step(state, op)) && Means(Step(state, op), PlainStep(plain, op))
  {
    match op
    case InternOp(domain, strings) =>
      InternKeeps(state, domain, strings);
      MeansStays(state, Step(state, op), plain);
    case PublishOp(entry, remap) => PublishMeans(state, plain, entry, remap);
    case BatchOp(entries, removed) => PublishAllMeans(state, plain, entries);
  }

  /** Over every run, from any state that means a plain store. */
  lemma {:induction false} RunMeans(state: State, plain: PlainStore, ops: seq<Op>)
    requires Valid(state) && Means(state, plain)
    ensures Valid(Run(state, ops)) && Grown(state, Run(state, ops)) && Means(Run(state, ops), PlainRun(plain, ops))
    decreases ops
  {
    if ops != [] {
      var next := Step(state, ops[0]);
      StepMeans(state, plain, ops[0]);
      RunMeans(next, PlainStep(plain, ops[0]), ops[1..]);
      GrownTransitive(state, next, Run(next, ops[1..]));
    }
  }

  /** The whole claim: every run from the empty store means what the same run of plain strings means. */
  lemma EveryRun(ops: seq<Op>)
    ensures Valid(Run(EMPTY, ops)) && Means(Run(EMPTY, ops), PlainRun(PLAIN_EMPTY, ops))
  {
    RunMeans(EMPTY, PLAIN_EMPTY, ops);
  }

  /** Ids handed out once look up to the interned strings after any later run. */
  lemma InternedForEver(before: seq<Op>, domain: Text, strings: seq<Text>, after: seq<Op>)
    ensures var state := Run(EMPTY, before);
            Lookup(Run(Interned(state, domain, strings), after).values, InternedIds(state, domain, strings)) ==
            Some(strings)
  {
    var state := Run(EMPTY, before);
    EveryRun(before);
    InternKeeps(state, domain, strings);
    var next := Interned(state, domain, strings);
    MeansStays(state, next, PlainRun(PLAIN_EMPTY, before));
    RunMeans(next, PlainRun(PLAIN_EMPTY, before), after);
    LookupStays(next, Run(next, after), InternedIds(state, domain, strings));
  }

  // ---------------------------------------------------------------------------------------------
  // The store as an object

  /** The local domain tables of a source, with their order of appearance. */
  ghost predicate LocalTables(local: map<Text, seq<Text>>, order: seq<Text>, columns: seq<Column>) {
    && order == Domains(columns)
    && (forall d :: d in local <==> d in order)
    && forall d | d in local :: local[d] == Table(columns, d)
  }

  lemma {:induction false} TableEmpty(columns: seq<Column>, d: Text)
    requires d !in Domains(columns)
    ensures Table(columns, d) == []
  {
    if columns != [] {
      var n := |columns| - 1;
      TableEmpty(columns[..n], d);
    }
  }

  lemma LocalTablesStep(local: map<Text, seq<Text>>, order: seq<Text>, columns: seq<Column>, i: nat)
    requires i < |columns| && LocalTables(local, order, columns[..i])
    ensures var c := columns[i];
            if c.Strings? then
              LocalTables(local[c.domain := (if c.domain in local then local[c.domain] else []) + c.strings],
                          if c.domain in local then order else order + [c.domain], columns[..i + 1])
            else LocalTables(local, order, columns[..i + 1])
  {
    var c := columns[i];
    assert columns[..i + 1][..i] == columns[..i] && columns[..i + 1][i] == c;
    if c.Strings? {
      if c.domain !in local { TableEmpty(columns[..i], c.domain); }
      var next := local[c.domain := (if c.domain in local then local[c.domain] else []) + c.strings];
      forall d | d in next ensures next[d] == Table(columns[..i + 1], d) {
        assert d == c.domain || d in local;
      }
    }
  }

  lemma InternTablesStep(state: State, columns: seq<Column>, domains: seq<Text>, k: nat)
    requires k < |domains|
    ensures var before := InternTables(state, columns, domains[..k]); var d := domains[k];
            InternTables(state, columns, domains[..k + 1]) ==
            (Interned(before.0, d, Table(columns, d)), before.1[d := InternedIds(before.0, d, Table(columns, d))])
  {
    assert domains[..k + 1][..k] == domains[..k] && domains[..k + 1][k] == domains[k];
  }

  class Store {
    var values: seq<Text>
    var ids: map<Text, nat>
    var segments: seq<Segment>
    var layers: map<Text, Layer>
    var active: map<Text, Text>

    function View(): (state: State)
      reads this
    {
      State(values, ids, segments, layers, active)
    }

    constructor ()
      ensures View() == EMPTY
    {
      values, ids, segments, layers, active := [], map[], [], map[], map[];
    }

    method Intern(domain: Text, strings: seq<Text>) returns (r: seq<nat>)
      modifies this
      ensures View() == Interned(old(View()), domain, strings)
      ensures r == InternedIds(old(View()), domain, strings)
    {
      var added := Fresh(ids, strings);
      if |added| > 0 {
        segments := segments + [Segment(|values|, |added|, domain)];
        for k := 0 to |added|
          invariant values == old(values) + added[..k] && ids == Assign(old(ids), added[..k], |old(values)|)
          invariant segments == old(segments) + [Segment(|old(values)|, |added|, domain)]
          invariant layers == old(layers) && active == old(active)
        {
          ids := ids[added[k] := |values|];
          values := values + [added[k]];
          TakeSnoc(added, k);
          assert added[..k + 1][..k] == added[..k];
        }
        assert added[..|added|] == added;
      }
      r := IdsOf(ids, strings);
    }

    /** `strings`: a missing id throws. */
    method Strings(selected: seq<nat>) returns (r: Option<seq<Text>>)
      ensures r == Lookup(values, selected)
    {
      var found: seq<Text> := [];
      for i := 0 to |selected|
        invariant |found| == i && forall k | 0 <= k < i :: selected[k] < |values| && found[k] == values[selected[k]]
      {
        if selected[i] >= |values| {
          return None;
        }
        found := found + [values[selected[i]]];
      }
      LookupIs(values, selected, found);
      r := Some(found);
    }

    /** `publish`; `false` is its throw. */
    method Publish(entry: Entry, remap: bool) returns (ok: bool)
      modifies this
      ensures (View(), ok) == Published(old(View()), entry, remap)
    {
      var source := entry.source;
      var local: map<Text, seq<Text>>, order: seq<Text> := map[], [];
      for i := 0 to |source|
        invariant LocalTables(local, order, source[..i]) && View() == old(View())
      {
        var c := source[i];
        LocalTablesStep(local, order, source, i);
        if c.Strings? {
          order := if c.domain in local then order else order + [c.domain];
          local := local[c.domain := (if c.domain in local then local[c.domain] else []) + c.strings];
        }
      }
      assert source[..|source|] == source;
      var mappings: map<Text, seq<nat>> := map[];
      if remap {
        mappings := InternLocal(source, local, order);
      }
      ghost var next := View();
      assert (next, mappings) == if remap then InternTables(old(View()), source, order) else (old(View()), map[]);
      var selected := Selected(source, order);
      var columns: map<Text, seq<nat>> := map[];
      for i := 0 to |selected|
        invariant StoredColumns(selected[..i], remap, mappings) == Some(columns)
        invariant View() == next
      {
        assert selected[..i + 1][..i] == selected[..i] && selected[..i + 1][i] == selected[i];
        var data := StoredData(selected[i], remap, mappings);
        if data.None? {
          StoredFails(selected, i, remap, mappings);
          return false;
        }
        columns := columns[selected[i].name := data.value];
      }
      assert selected[..|selected|] == selected;
      layers := layers[entry.key := Layer(columns, |segments|)];
      active := active[entry.name := entry.key];
      ok := true;
    }

    method InternLocal(source: seq<Column>, local: map<Text, seq<Text>>, order: seq<Text>)
      returns (mappings: map<Text, seq<nat>>)
      requires LocalTables(local, order, source)
      modifies this
      ensures View() == InternTables(old(View()), source, order).0
      ensures mappings == InternTables(old(View()), source, order).1
    {
      ghost var start := View();
      mappings := map[];
      for k := 0 to |order|
        invariant View() == InternTables(start, source, order[..k]).0
        invariant mappings == InternTables(start, source, order[..k]).1
      {
        InternTablesStep(start, source, order, k);
        var table := Intern(order[k], local[order[k]]);
        mappings := mappings[order[k] := table];
      }
      assert order[..|order|] == order;
    }

    /** `batch`: publishes in order, then drops the removed names; a throw leaves the rest undone. */
    method Batch(entries: seq<Entry>, removed: seq<Text>)
      modifies this
      ensures View() == Batched(old(View()), entries, removed)
    {
      for i := 0 to |entries|
        invariant PublishedAll(old(View()), entries) == PublishedAll(View(), entries[i..])
      {
        assert entries[i..][1..] == entries[i + 1..];
        var ok := Publish(entries[i], true);
        if !ok {
          return;
        }
      }
      active := active - Names(removed);
    }
  }

  lemma {:induction false} StoredFails(selected: seq<Column>, i: nat, remap: bool, mappings: map<Text, seq<nat>>)
    requires i < |selected| && StoredData(selected[i], remap, mappings) == None
    ensures StoredColumns(selected, remap, mappings) == None
  {
    var n := |selected| - 1;
    if i < n {
      assert selected[..n][i] == selected[i];
      StoredFails(selected[..n], i, remap, mappings);
    }
  }
}
