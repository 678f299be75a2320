/**
 * The ownership receipt of a written corpus and the check before a clean: what is deleted is exactly what
 * was written, and a refusal deletes nothing.
 */
module CorpusOwnership {
  import opened Basics
  import opened Utf16
  import opened TextEnds

  type Path = Text
  type Digest = Text

  /** One line of a receipt, its path resolved. */
  datatype Entry = Entry(path: Path, sha256: Digest)

  /** A file holds bytes; `receipt` is what they decode to as a receipt, if they do. */
  datatype Content = Content(bytes: Text, receipt: Option<seq<Entry>>)

  datatype Tree = Tree(files: map<Path, Content>, directories: set<Path>)

  /** What lies on the disk: no path is both a file and a directory. */
  type Disk = t: Tree | t.files.Keys !! t.directories witness Tree(map[], {})

  /** Where a corpus lies: its content and localization trees, its configuration file and its receipt. */
  datatype Layout = Layout(project: set<Path>, content: set<Path>, localization: set<Path>, config: Path, receipt: Path)

  datatype Error =
    | OutputExists
    | NoReceipt
    | BadReceipt
    | Escapes(path: Path)
    | Foreign(file: Path)
    | NotAFile(path: Path)
    | Gone(file: Path)
    | NoConfig

  datatype Result = Ok | Err(error: Error)

  const RECEIPT_NAME: string := "UEShedGameTextCorpus.ownership.json"

  /** Paths the corpus owns the right to: below one of its trees, or its configuration file. */
  predicate Output(l: Layout, p: Path) {
    p in l.content || p in l.localization || p == l.config
  }

  ghost predicate Sound(l: Layout) {
    && (forall p | Output(l, p) :: p in l.project)
    && l.receipt in l.content && EndsWith(l.receipt, Ascii(RECEIPT_NAME)) && !EndsWith(l.config, Ascii(RECEIPT_NAME))
  }

  function Exists(d: Disk, p: Path): bool {
    p in d.files || p in d.directories
  }

  /** What is there of a corpus: the files of its trees, and whatever has the configuration's path. */
  function Existing(l: Layout, d: Disk): set<Path> {
    (set p | p in d.files && Output(l, p)) + (if Exists(d, l.config) then {l.config} else {})
  }

  /** What a receipt records, later lines winning. */
  function Owned(entries: seq<Entry>): map<Path, Digest> {
    if entries == [] then map[]
    else
      var last := entries[|entries| - 1];
      Owned(entries[..|entries| - 1])[last.path := last.sha256]
  }

  // ---------------------------------------------------------------------------------------------
  // What a corpus is, as paths and digests

  /** The files of the corpus with their digests, the receipt aside. */
  function Current(l: Layout, d: Disk, sha256: Text -> Digest): map<Path, Digest> {
    map p | p in d.files && Output(l, p) && p != l.receipt :: sha256(d.files[p].bytes)
  }

  /** What the receipt of this disk will record: files with the receipt's name are left out wherever they lie. */
  function Recorded(l: Layout, d: Disk, sha256: Text -> Digest): map<Path, Digest> {
    map p | p in d.files && Output(l, p) && !EndsWith(p, Ascii(RECEIPT_NAME)) :: sha256(d.files[p].bytes)
  }

  ghost predicate Records(entries: seq<Entry>, m: map<Path, Digest>) {
    && (forall i | 0 <= i < |entries| :: entries[i].path in m && m[entries[i].path] == entries[i].sha256)
    && (forall p | p in m :: Entry(p, m[p]) in entries)
  }

  lemma {:induction false} OwnedRecords(entries: seq<Entry>, m: map<Path, Digest>)
    requires Records(entries, m)
    ensures Owned(entries) == m
  {
    forall p
      ensures p in Owned(entries) <==> p in m
      ensures p in Owned(entries) ==> Owned(entries)[p] == m[p]
    {
      OwnedPath(entries, m, p);
    }
  }

  lemma {:induction false} OwnedPath(entries: seq<Entry>, m: map<Path, Digest>, p: Path)
    requires forall i | 0 <= i < |entries| :: entries[i].path in m && m[entries[i].path] == entries[i].sha256
    ensures p in Owned(entries) ==> p in m && Owned(entries)[p] == m[p]
    ensures p in m && Entry(p, m[p]) in entries ==> p in Owned(entries)
  {
    if entries != [] {
      var n := |entries| - 1;
      OwnedPath(entries[..n], m, p);
      assert entries[n].path in m && m[entries[n].path] == entries[n].sha256;
      assert entries == entries[..n] + [entries[n]];
    }
  }

  // ---------------------------------------------------------------------------------------------
  // The check

  ghost predicate Confined(l: Layout, entries: seq<Entry>) {
    forall i | 0 <= i < |entries| :: entries[i].path in l.project && Output(l, entries[i].path)
  }

  /** A recorded file with the digest recorded; a directory has no digest. */
  predicate AsRecorded(d: Disk, owned: map<Path, Digest>, sha256: Text -> Digest, p: Path) {
    p in owned && p in d.files && owned[p] == sha256(d.files[p].bytes)
  }

  /** All there is but the receipt is recorded as it is. */
  ghost predicate NothingForeign(l: Layout, d: Disk, owned: map<Path, Digest>, sha256: Text -> Digest) {
    forall p | p in Existing(l, d) && p != l.receipt :: AsRecorded(d, owned, sha256, p)
  }

  ghost predicate NothingGone(d: Disk, owned: map<Path, Digest>) {
    forall p | p in owned :: Exists(d, p)
  }

  ghost predicate Accepts(l: Layout, d: Disk, sha256: Text -> Digest) {
    && l.receipt in d.files && d.files[l.receipt].receipt.Some?
    && var entries := d.files[l.receipt].receipt.value;
       Confined(l, entries) && NothingForeign(l, d, Owned(entries), sha256) && NothingGone(d, Owned(entries))
  }

  /** The disk of the project, which the two operations work on. */
  class Project {
    const layout: Layout
    var disk: Disk

    constructor (layout: Layout, disk: Disk)
      ensures this.layout == layout && this.disk == disk
    {
      this.layout, this.disk := layout, disk;
    }

    /** The receipt's lines: each path must lie in the corpus output. */
    method ReadOwned(entries: seq<Entry>) returns (r: Result, owned: map<Path, Digest>)
      ensures r.Ok? <==> Confined(layout, entries)
      ensures r.Ok? ==> owned == Owned(entries)
      ensures r.Err? ==> r.error.Escapes?
    {
      owned := map[];
      for i := 0 to |entries|
        invariant owned == Owned(entries[..i]) && Confined(layout, entries[..i])
      {
        var entry := entries[i];
        if entry.path !in layout.project || !Output(layout, entry.path) {
          return Err(Escapes(entry.path)), owned;
        }
        TakeSnoc(entries, i);
        assert entries[..i + 1][..i] == entries[..i];
        owned := owned[entry.path := entry.sha256];
      }
      assert entries[..|entries|] == entries;
      r := Ok;
    }

    /** Everything there must be recorded as it is; the digest of a recorded directory cannot be taken. */
    method CheckExisting(owned: map<Path, Digest>, sha256: Text -> Digest) returns (r: Result)
      ensures r.Ok? <==> NothingForeign(layout, disk, owned, sha256)
      ensures r.Err? ==> r.error.Foreign? || (r.error == NotAFile(layout.config) && layout.config in disk.directories)
    {
      var rest := Existing(layout, disk);
      while rest != {}
        invariant rest <= Existing(layout, disk)
        invariant forall p | p in Existing(layout, disk) && p !in rest && p != layout.receipt ::
          AsRecorded(disk, owned, sha256, p)
        decreases |rest|
      {
        var file :| file in rest;
        if file != layout.receipt {
          if file !in owned {
            return Err(Foreign(file));
          }
          if file !in disk.files {
            return Err(NotAFile(file));
          }
          if sha256(disk.files[file].bytes) != owned[file] {
            return Err(Foreign(file));
          }
        }
        rest := rest - {file};
      }
      r := Ok;
    }

    /** Every recorded path must be there. */
    method CheckOwned(owned: map<Path, Digest>) returns (r: Result)
      ensures r.Ok? <==> NothingGone(disk, owned)
      ensures r.Err? ==> r.error.Gone?
    {
      var rest := owned.Keys;
      while rest != {}
        invariant rest <= owned.Keys
        invariant forall p | p in owned && p !in rest :: Exists(disk, p)
        decreases |rest|
      {
        var file :| file in rest;
        if !Exists(disk, file) {
          return Err(Gone(file));
        }
        rest := rest - {file};
      }
      r := Ok;
    }

    /** Clears the way for a new corpus, or refuses without touching anything. */
    method Prepare(clean: bool, remove: bool, sha256: Text -> Digest) returns (r: Result)
      modifies this
      ensures Existing(layout, old(disk)) == {} ==> r.Ok? && disk == old(disk)
      ensures Existing(layout, old(disk)) != {} ==>
        (r.Ok? <==> clean && Accepts(layout, old(disk), sha256))
      ensures Existing(layout, old(disk)) != {} && !clean ==> r == Err(OutputExists)
      ensures layout.config in old(disk).directories ==> r.Err?
      ensures r.Err? || !remove ==> disk == old(disk)
      ensures r.Ok? && remove && Existing(layout, old(disk)) != {} ==> disk == Cleared(layout, old(disk))
      ensures r.Ok? && remove ==> Existing(layout, disk) == {}
      ensures forall p | !Output(layout, p) ::
        (p in disk.files <==> p in old(disk).files) && (p in disk.files ==> disk.files[p] == old(disk).files[p])
    {
      var existing := Existing(layout, disk);
      if existing == {} {
        return Ok;
      }
      if !clean {
        return Err(OutputExists);
      }
      if layout.receipt !in disk.files {
        return Err(if layout.receipt in disk.directories then BadReceipt else NoReceipt);
      }
      if disk.files[layout.receipt].receipt.None? {
        return Err(BadReceipt);
      }
      var owned;
      r, owned := ReadOwned(disk.files[layout.receipt].receipt.value);
      if r.Err? {
        return;
      }
      r := CheckExisting(owned, sha256);
      if r.Err? {
        return;
      }
      r := CheckOwned(owned);
      if r.Err? || !remove {
        return;
      }
      disk := Cleared(layout, disk);
    }

    /**
     * Writes the receipt of what is there; it fails without a configuration file, and where a directory has the
     * receipt's path. The listing is the walk of both trees with the configuration file behind it.
     */
    method WriteOwnership(listing: seq<Path>, encode: seq<Entry> -> Text, sha256: Text -> Digest)
      returns (r: Result, ghost entries: seq<Entry>)
      requires forall p :: p in listing <==> (p in disk.files && Output(layout, p)) || p == layout.config
      requires !EndsWith(layout.config, Ascii(RECEIPT_NAME))
      modifies this
      ensures r.Ok? <==> layout.config in old(disk).files && layout.receipt !in old(disk).directories
      ensures r.Err? ==> disk == old(disk)
      ensures r.Ok? ==> Records(entries, Recorded(layout, old(disk), sha256))
      ensures r.Ok? ==> disk == Receipted(layout, old(disk), entries, encode(entries))
    {
      var lines: seq<Entry> := [];
      entries := [];
      for i := 0 to |listing|
        invariant disk == old(disk) && Listed(layout, disk, sha256, listing[..i], lines)
      {
        var file := listing[i];
        ListedSnoc(layout, disk, sha256, listing[..i], file, lines);
        TakeSnoc(listing, i);
        assert file in listing;
        if !EndsWith(file, Ascii(RECEIPT_NAME)) {
          if file !in disk.files {
            return Err(NoConfig), [];
          }
          lines := lines + [Entry(file, sha256(disk.files[file].bytes))];
        }
      }
      assert listing[..|listing|] == listing;
      assert layout.config in listing;
      entries := lines;
      ListedRecords(layout, disk, sha256, listing, lines);
      if layout.receipt in disk.directories {
        return Err(NotAFile(layout.receipt)), lines;
      }
      disk := Receipted(layout, disk, lines, encode(lines));
      r := Ok;
    }
  }

  /** The lines of a receipt are those of the listed files but the receipts, with their digests. */
  ghost predicate Listed(l: Layout, d: Disk, sha256: Text -> Digest, listing: seq<Path>, lines: seq<Entry>) {
    && (forall i | 0 <= i < |lines| :: Lists(d, sha256, listing, lines[i]))
    && (forall p | p in listing && !EndsWith(p, Ascii(RECEIPT_NAME)) ::
          p in d.files && Entry(p, sha256(d.files[p].bytes)) in lines)
  }

  ghost predicate Lists(d: Disk, sha256: Text -> Digest, listing: seq<Path>, e: Entry) {
    && e.path in listing && e.path in d.files && !EndsWith(e.path, Ascii(RECEIPT_NAME))
    && e.sha256 == sha256(d.files[e.path].bytes)
  }

  lemma ListedSnoc(l: Layout, d: Disk, sha256: Text -> Digest, listing: seq<Path>, file: Path, lines: seq<Entry>)
    requires Listed(l, d, sha256, listing, lines)
    ensures EndsWith(file, Ascii(RECEIPT_NAME)) ==> Listed(l, d, sha256, listing + [file], lines)
    ensures !EndsWith(file, Ascii(RECEIPT_NAME)) && file in d.files ==>
      Listed(l, d, sha256, listing + [file], lines + [Entry(file, sha256(d.files[file].bytes))])
  {
    assert forall i | 0 <= i < |lines| :: Lists(d, sha256, listing + [file], lines[i]);
  }

  lemma ListedRecords(l: Layout, d: Disk, sha256: Text -> Digest, listing: seq<Path>, lines: seq<Entry>)
    requires Listed(l, d, sha256, listing, lines)
    requires forall p :: p in listing <==> (p in d.files && Output(l, p)) || p == l.config
    ensures Records(lines, Recorded(l, d, sha256))
  {
    forall i | 0 <= i < |lines|
      ensures lines[i].path in Recorded(l, d, sha256)
    {
      assert Lists(d, sha256, listing, lines[i]);
    }
    forall p | p in Recorded(l, d, sha256)
      ensures p in listing
    {
    }
  }

  function Cleared(l: Layout, d: Disk): Disk {
    Tree(map p | p in d.files && !Output(l, p) :: d.files[p], set p | p in d.directories && !Output(l, p))
  }

  function Receipted(l: Layout, d: Disk, entries: seq<Entry>, bytes: Text): Disk
    requires l.receipt !in d.directories
  {
    d.(files := d.files[l.receipt := Content(bytes, Some(entries))])
  }

  // ---------------------------------------------------------------------------------------------
  // Main results

  /** The disk still holds the receipt that was written for a corpus. */
  ghost predicate Keeps(l: Layout, d: Disk, recorded: map<Path, Digest>) {
    && l.receipt in d.files && d.files[l.receipt].receipt.Some?
    && Records(d.files[l.receipt].receipt.value, recorded)
  }

  /**
   * Under the receipt of a corpus, a clean is accepted exactly when the files are those recorded with the
   * digests recorded, but for recorded files of the two trees that have become directories: those it does
   * not miss. A directory with the configuration's path is always refused.
   */
  lemma AcceptsExactly(l: Layout, was: Disk, d: Disk, sha256: Text -> Digest)
    requires Sound(l) && Keeps(l, d, Recorded(l, was, sha256))
    ensures var recorded := Recorded(l, was, sha256);
      Accepts(l, d, sha256) <==>
        && l.config !in d.directories
        && (forall p | p in Current(l, d, sha256) :: p in recorded && recorded[p] == Current(l, d, sha256)[p])
        && (forall p | p in recorded && p !in Current(l, d, sha256) :: p in d.directories)
  {
    var recorded := Recorded(l, was, sha256);
    var entries := d.files[l.receipt].receipt.value;
    var current := Current(l, d, sha256);
    OwnedRecords(entries, recorded);
    assert Confined(l, entries);
    ForeignExactly(l, d, recorded, sha256);
    assert NothingGone(d, recorded) <==> forall p | p in recorded && p !in current :: p in d.directories;
  }

  lemma ForeignExactly(l: Layout, d: Disk, owned: map<Path, Digest>, sha256: Text -> Digest)
    requires Sound(l)
    ensures var current := Current(l, d, sha256);
      NothingForeign(l, d, owned, sha256) <==>
        l.config !in d.directories && forall p | p in current :: p in owned && owned[p] == current[p]
  {
    var current := Current(l, d, sha256);
    assert l.config != l.receipt;
    if NothingForeign(l, d, owned, sha256) {
      assert l.config in d.directories ==> AsRecorded(d, owned, sha256, l.config);
      forall p | p in current
        ensures p in owned && owned[p] == current[p]
      {
        assert AsRecorded(d, owned, sha256, p);
      }
    }
    if l.config !in d.directories && forall p | p in current :: p in owned && owned[p] == current[p] {
      forall p | p in Existing(l, d) && p != l.receipt
        ensures AsRecorded(d, owned, sha256, p)
      {
        assert p in current;
      }
    }
  }

  /** A directory with the configuration's path turns every clean down, whatever is recorded. */
  lemma ConfigurationRefused(l: Layout, d: Disk, sha256: Text -> Digest)
    requires l.config in d.directories
    ensures l.config in Existing(l, d) && !Accepts(l, d, sha256)
  {
    assert l.config in Existing(l, d);
  }

  /** `d` with a directory where the file `p` was. */
  function Turned(d: Disk, p: Path): (e: Disk) {
    Tree(d.files - {p}, d.directories + {p})
  }

  /**
   * A recorded file that becomes a directory is missed exactly when it is the configuration file: anywhere
   * else what was accepted still is.
   */
  lemma DirectoryUnnoticed(l: Layout, was: Disk, d: Disk, sha256: Text -> Digest, p: Path)
    requires Sound(l) && Keeps(l, d, Recorded(l, was, sha256)) && Accepts(l, d, sha256)
    requires p in d.files && p in Recorded(l, was, sha256)
    ensures var e := Turned(d, p);
      && Keeps(l, e, Recorded(l, was, sha256)) && p !in Current(l, e, sha256)
      && (Accepts(l, e, sha256) <==> p != l.config)
  {
    AcceptsExactly(l, was, d, sha256);
    AcceptsExactly(l, was, Turned(d, p), sha256);
  }

  /** A corpus of a configuration file and one table. */
  function Small(receipt: Path, config: Path, table: Path): (l: Layout) {
    Layout({receipt, config, table}, {receipt, table}, {}, config, receipt)
  }

  const BLANK: Content := Content([], None)

  function SmallDisk(config: Path, table: Path): (d: Disk) {
    Tree(map[config := BLANK, table := BLANK], {})
  }

  /** Just recorded, and then a directory in the table's place. */
  function SmallTurned(receipt: Path, config: Path, table: Path, digest: Digest): (d: Disk)
    requires table != receipt && table != config
  {
    Tree(map[config := BLANK, receipt := Content([], Some([Entry(table, digest), Entry(config, digest)]))], {table})
  }

  lemma SmallRecorded(receipt: Path, config: Path, table: Path, sha256: Text -> Digest)
    requires !EndsWith(config, Ascii(RECEIPT_NAME)) && !EndsWith(table, Ascii(RECEIPT_NAME))
    ensures Recorded(Small(receipt, config, table), SmallDisk(config, table), sha256) ==
      map[config := sha256([]), table := sha256([])]
  {
  }

  lemma SmallAccepted(receipt: Path, config: Path, table: Path, sha256: Text -> Digest)
    requires EndsWith(receipt, Ascii(RECEIPT_NAME)) && table != config
    requires !EndsWith(config, Ascii(RECEIPT_NAME)) && !EndsWith(table, Ascii(RECEIPT_NAME))
    ensures var l, was := Small(receipt, config, table), SmallDisk(config, table);
      var now := SmallTurned(receipt, config, table, sha256([]));
      && Sound(l) && Keeps(l, now, Recorded(l, was, sha256)) && Accepts(l, now, sha256)
      && table in Recorded(l, was, sha256) && table !in now.files
  {
    var l, was := Small(receipt, config, table), SmallDisk(config, table);
    var h := sha256([]);
    var now := SmallTurned(receipt, config, table, h);
    var entries := [Entry(table, h), Entry(config, h)];
    SmallRecorded(receipt, config, table, sha256);
    assert entries[0] == Entry(table, h) && entries[1] == Entry(config, h);
    AcceptsExactly(l, was, now, sha256);
  }

  /** At three names: the table has become a directory, and the clean is accepted all the same. */
  lemma DirectoryExample(sha256: Text -> Digest)
    ensures var receipt, config, table := Ascii(RECEIPT_NAME), [0x63], [0x74];
      var l, was := Small(receipt, config, table), SmallDisk(config, table);
      var now := SmallTurned(receipt, config, table, sha256([]));
      && Sound(l) && Keeps(l, now, Recorded(l, was, sha256)) && Accepts(l, now, sha256)
      && table in Recorded(l, was, sha256) && table !in now.files
  {
    var receipt: Path, config: Path, table: Path := Ascii(RECEIPT_NAME), [0x63], [0x74];
    assert |config| == 1 && |table| == 1 && |receipt| > 1;
    assert EndsWith(receipt, receipt);
    assert config[0] != table[0];
    SmallAccepted(receipt, config, table, sha256);
  }

  /** Where no recorded file has become a directory, that is equality of the two maps. */
  lemma AcceptsSameFiles(l: Layout, was: Disk, d: Disk, sha256: Text -> Digest)
    requires Sound(l) && Keeps(l, d, Recorded(l, was, sha256))
    requires forall p | p in Recorded(l, was, sha256) :: p !in d.directories
    ensures Accepts(l, d, sha256) <==>
      Current(l, d, sha256) == Recorded(l, was, sha256) && l.config !in d.directories
  {
    AcceptsExactly(l, was, d, sha256);
  }

  /**
   * Right after writing, a clean is accepted exactly when no other file bears the receipt's name: such a
   * file is left out of the receipt and then counts as foreign.
   */
  lemma OwnReceiptAccepted(l: Layout, d: Disk, entries: seq<Entry>, bytes: Text, sha256: Text -> Digest)
    requires Sound(l) && Records(entries, Recorded(l, d, sha256)) && l.config in d.files
    requires l.receipt !in d.directories
    ensures var after := Receipted(l, d, entries, bytes);
      Accepts(l, after, sha256) <==>
        forall p | p in d.files && Output(l, p) && p != l.receipt :: !EndsWith(p, Ascii(RECEIPT_NAME))
  {
    var after := Receipted(l, d, entries, bytes);
    var recorded := Recorded(l, d, sha256);
    var current := Current(l, after, sha256);
    AcceptsExactly(l, d, after, sha256);
    assert forall p | p in recorded :: p in current && current[p] == recorded[p];
    forall p | p in current
      ensures p in recorded <==> !EndsWith(p, Ascii(RECEIPT_NAME))
    {
    }
  }

  /** Any edit, deletion or new file after that turns the next clean down, and nothing is removed. */
  lemma ChangesAreRefused(l: Layout, was: Disk, d: Disk, sha256: Text -> Digest, p: Path)
    requires Sound(l) && Keeps(l, d, Recorded(l, was, sha256)) && Output(l, p) && p != l.receipt
    requires p in d.files
      ==> !(p in was.files && sha256(was.files[p].bytes) == sha256(d.files[p].bytes))
    requires p !in d.files ==>
      p in was.files && !EndsWith(p, Ascii(RECEIPT_NAME)) && (p in d.directories ==> p == l.config)
    ensures !Accepts(l, d, sha256)
  {
    AcceptsExactly(l, was, d, sha256);
    if p in d.files {
      assert p in Current(l, d, sha256);
    } else {
      assert p in Recorded(l, was, sha256);
    }
  }
}
