/**
 * The tag library (Thoughts/Model/Library.swift): it listens to a directory
 * scanner, remembers the front-matter tags of every Markdown file it is told
 * about, and after every callback rebuilds a prefix tree of all tags seen.
 *
 * Reading a document's front matter is foreign (FrontmatterSwift); it is a
 * function `Reader` from a file's URL to its parsed metadata, or `None` when
 * loading or parsing throws.
 */
module TagLibrary {
  import opened Wrappers
  import opened FileDetails
  import opened FileListing
  import opened Scanner
  import opened Tries

  /** The shape of a parsed front-matter value, as far as the library looks at it. */
  datatype Yaml = Text(text: string) | Items(items: seq<Yaml>) | OtherYaml

  type Metadata = map<string, Yaml>

  /** A document's front matter, or `None` when it cannot be loaded. */
  type Reader = Url -> Option<Metadata>

  /** The tags remembered per file. */
  type TagTable = map<Identifier, seq<string>>

  /** `as? [String]`: an array all of whose elements are strings. */
  function StringArray(items: seq<Yaml>): (r: Option<seq<string>>)
    ensures r.Some? <==> forall i :: 0 <= i < |items| ==> items[i].Text?
    ensures r.Some? ==> |r.value| == |items| && forall i :: 0 <= i < |items| ==> r.value[i] == items[i].text
  {
    if items == [] then Some([])
    else match StringArray(items[1..]) {
      case Some(rest) => if items[0].Text? then Some([items[0].text] + rest) else None
      case None => None
    }
  }

  /** `Library.tags(for:)`: the `tags` array of the front matter, or nothing. */
  function TagsFor(url: Url, read: Reader): (r: seq<string>)
    ensures read(url).None? ==> r == []
    ensures read(url).Some? && "tags" !in read(url).value ==> r == []
    ensures read(url).Some? && "tags" in read(url).value ==>
      match read(url).value["tags"] {
        case Items(items) =>
          if forall i :: 0 <= i < |items| ==> items[i].Text?
          then |r| == |items| && forall i :: 0 <= i < |items| ==> r[i] == items[i].text
          else r == []
        case _ => r == []
      }
  {
    match read(url) {
      case None => []
      case Some(metadata) =>
        if "tags" !in metadata then []
        else match metadata["tags"] {
          case Items(items) => if StringArray(items).Some? then StringArray(items).value else []
          case _ => []
        }
    }
  }

  /** The creation and update callbacks: the tags of each Markdown file, later entries winning. */
  ghost function Recording(files: TagTable, ds: seq<Details>, read: Reader): TagTable
  {
    if ds == [] then files
    else
      var before := Recording(files, ds[..|ds| - 1], read);
      var d := ds[|ds| - 1];
      if IsMarkdown(d.contentType) then before[d.identifier := TagsFor(d.url, read)] else before
  }

  /** What one delivered batch does to the table. */
  ghost function Delivered(files: TagTable, batch: Batch, read: Reader): TagTable
  {
    match batch {
      case Creation(ds) => Recording(files, ds, read)
      case Update(ds) => Recording(files, ds, read)
      case Deletion(ids) => files - ids
    }
  }

  ghost function DeliveredAll(files: TagTable, batches: seq<Batch>, read: Reader): TagTable
  {
    if batches == [] then files
    else Delivered(DeliveredAll(files, batches[..|batches| - 1], read), batches[|batches| - 1], read)
  }

  /** `updateTags()`'s union of every file's tags. */
  ghost function TagUnion(files: TagTable): set<string>
  {
    set id, t | id in files && t in files[id] :: t
  }

  /** The files a recording touches are exactly the Markdown ones. */
  lemma {:induction false} RecordingKeys(files: TagTable, ds: seq<Details>, read: Reader)
    ensures Recording(files, ds, read).Keys
      == files.Keys + (set d | d in ds && IsMarkdown(d.contentType) :: d.identifier)
  {
    if ds != [] {
      var init := ds[..|ds| - 1];
      RecordingKeys(files, init, read);
      assert ds == init + [ds[|ds| - 1]];
    }
  }

  /** A file not mentioned as Markdown keeps its tags. */
  lemma {:induction false} RecordingElsewhere(files: TagTable, ds: seq<Details>, read: Reader, id: Identifier)
    requires forall d :: d in ds && IsMarkdown(d.contentType) ==> d.identifier != id
    ensures id in Recording(files, ds, read) <==> id in files
    ensures id in files ==> Recording(files, ds, read)[id] == files[id]
  {
    if ds != [] {
      RecordingElsewhere(files, ds[..|ds| - 1], read, id);
    }
  }

  /** With one entry per identifier, each Markdown file is given the tags of its own document. */
  lemma {:induction false} RecordingTags(files: TagTable, ds: seq<Details>, read: Reader, i: nat)
    requires UniqueIdentifiers(ds) && i < |ds| && IsMarkdown(ds[i].contentType)
    ensures ds[i].identifier in Recording(files, ds, read)
    ensures Recording(files, ds, read)[ds[i].identifier] == TagsFor(ds[i].url, read)
  {
    var init := ds[..|ds| - 1];
    if i < |ds| - 1 {
      assert UniqueIdentifiers(init);
      RecordingTags(files, init, read, i);
      assert ds[|ds| - 1].identifier != ds[i].identifier;
    }
  }

  /**
   * After a deletion the published tags are those of the surviving files: a
   * tag goes only when no surviving file still has it, and none is left once
   * every file is deleted.
   */
  lemma DeletionTags(files: TagTable, ids: set<Identifier>, read: Reader)
    ensures var after := TagUnion(Delivered(files, Deletion(ids), read));
            && after <= TagUnion(files)
            && (forall id, t :: id in files && id !in ids && t in files[id] ==> t in after)
            && (forall t :: t in after ==> exists id :: id in files && id !in ids && t in files[id])
            && (files.Keys <= ids ==> after == {})
  {
    var kept := files - ids;
    forall id, t | id in files && id !in ids && t in files[id] ensures t in TagUnion(kept) {
      assert id in kept && kept[id] == files[id];
    }
  }

  /** After a creation, the union holds every tag of every created Markdown document. */
  lemma CreationTagsPublished(files: TagTable, ds: seq<Details>, read: Reader, i: nat)
    requires UniqueIdentifiers(ds) && i < |ds| && IsMarkdown(ds[i].contentType)
    ensures forall t :: t in TagsFor(ds[i].url, read) ==> t in TagUnion(Delivered(files, Creation(ds), read))
  {
    RecordingKeys(files, ds, read);
    RecordingTags(files, ds, read, i);
    var after := Recording(files, ds, read);
    assert ds[i].identifier in after;
    forall t | t in TagsFor(ds[i].url, read) ensures t in TagUnion(after) {
      assert t in after[ds[i].identifier];
    }
  }

  /** A batch naming no Markdown file leaves the tags as they are. */
  lemma NonMarkdownIgnored(files: TagTable, ds: seq<Details>, read: Reader)
    requires forall d :: d in ds ==> !IsMarkdown(d.contentType)
    ensures Delivered(files, Update(ds), read) == files
  {
    RecordingKeys(files, ds, read);
    forall id | id in files ensures Recording(files, ds, read)[id] == files[id] {
      RecordingElsewhere(files, ds, read, id);
    }
  }

  /** The batches a start from an empty snapshot delivers: one creation batch of the whole walk, unless it is empty. */
  function StartupDelivery(current: seq<Details>): seq<Batch>
  {
    if current == [] then [] else [Creation(current)]
  }

  /** A start from an empty snapshot appends exactly the startup delivery to the log. */
  lemma EmptyStartDelivers(log: seq<Batch>, started: seq<Batch>, current: seq<Details>)
    requires started == log + StartupBatches(IndexById([]), current)
    ensures started == log + StartupDelivery(current)
    ensures started[|log|..] == StartupDelivery(current)
  {
    assert IndexById([]) == map[];
    EmptySnapshotCreatesAll(current);
  }

  /** Delivering the startup batches records the tags of every Markdown file walked. */
  lemma StartupRecords(files: TagTable, current: seq<Details>, read: Reader)
    ensures DeliveredAll(files, StartupDelivery(current), read) == Recording(files, current, read)
  {
    if current != [] {
      assert StartupDelivery(current)[..0] == [];
    }
  }

  /** `Library`. */
  class Library {
    const rootURL: Url
    const scanner: DirectoryScanner
    /** `files`: the tags of every Markdown file, by identifier. */
    var files: TagTable
    /** `tags`: the prefix tree of every tag in `files`. */
    var tags: Trie

    ghost predicate Valid()
      reads this, scanner, tags, tags.nodeAt.Values
    {
      && scanner.Valid() && scanner.url == rootURL
      && tags.Valid() && tags.Words() == TagUnion(files)
    }

    /** `init(rootURL:)`. */
    constructor (rootURL: Url)
      ensures Valid()
      ensures this.rootURL == rootURL && files == map[]
      ensures fresh(scanner) && scanner.identifiers == map[] && scanner.log == [] && scanner.nextUuid == 0
    {
      this.rootURL := rootURL;
      scanner := new DirectoryScanner(rootURL);
      files := map[];
      tags := new Trie([]);
    }

    /**
     * `start()`: the scanner starts with an empty snapshot, so its startup
     * delivers at most one creation batch, which this library records.
     */
    method Start(fs: FileSystem, read: Reader)
      requires Valid()
      requires Listing(rootURL, None, fs.metadata(rootURL), fs.enumerate(rootURL), scanner.nextUuid).Success?
      modifies this, scanner
      ensures Valid()
      ensures var current := Listing(rootURL, None, fs.metadata(rootURL), fs.enumerate(rootURL), old(scanner.nextUuid)).value;
              && files == Recording(old(files), current, read)
              && scanner.log == old(scanner.log) + StartupDelivery(current)
    {
      ghost var previous := files;
      ghost var current := Listing(rootURL, None, fs.metadata(rootURL), fs.enumerate(rootURL), scanner.nextUuid).value;
      ghost var log := scanner.log;
      var before := |scanner.log|;
      scanner.Start([], fs);
      EmptyStartDelivers(log, scanner.log, current);
      var batches := scanner.log[before..];
      Deliver(batches, read);
      StartupRecords(previous, current, read);
    }

    /** The scanner's event handler followed by the callbacks it triggers. */
    method HandleEvent(ev: Event, fs: FileSystem, read: Reader)
      requires Valid()
      modifies this, scanner
      ensures Valid()
      ensures var s := Handle(old(scanner.identifiers), old(scanner.nextUuid), rootURL, ev, fs);
              && scanner.log == old(scanner.log) + s.batches
              && files == DeliveredAll(old(files), s.batches, read)
    {
      var before := |scanner.log|;
      scanner.HandleEvent(ev, fs);
      Deliver(scanner.log[before..], read);
    }

    /** Hand a run of batches to the callbacks, in order. */
    method Deliver(batches: seq<Batch>, read: Reader)
      requires Valid()
      modifies this
      ensures Valid()
      ensures files == DeliveredAll(old(files), batches, read)
    {
      var i := 0;
      while i < |batches|
        invariant 0 <= i <= |batches|
        invariant Valid()
        invariant files == DeliveredAll(old(files), batches[..i], read)
      {
        assert batches[..i + 1][..i] == batches[..i];
        match batches[i] {
          case Creation(ds) => OnFileCreation(ds, read);
          case Update(ds) => OnFileUpdate(ds, read);
          case Deletion(ids) => OnFileDeletion(ids);
        }
        i := i + 1;
      }
      assert batches[..i] == batches;
    }

    /** The `onFileCreation` callback. */
    method OnFileCreation(details: seq<Details>, read: Reader)
      requires Valid()
      modifies this
      ensures Valid()
      ensures files == Recording(old(files), details, read)
    {
      RecordTags(details, read);
      UpdateTags();
    }

    /** The `onFileUpdate` callback; the same steps as creation. */
    method OnFileUpdate(details: seq<Details>, read: Reader)
      requires Valid()
      modifies this
      ensures Valid()
      ensures files == Recording(old(files), details, read)
    {
      RecordTags(details, read);
      UpdateTags();
    }

    /** The `onFileDeletion` callback. */
    method OnFileDeletion(identifiers: set<Identifier>)
      requires Valid()
      modifies this
      ensures Valid()
      ensures files == old(files) - identifiers
    {
      var remaining := identifiers;
      while remaining != {}
        invariant remaining <= identifiers
        invariant files == old(files) - (identifiers - remaining)
        decreases remaining
      {
        var id :| id in remaining;
        files := files - {id};
        remaining := remaining - {id};
      }
      UpdateTags();
    }

    /** The loop shared by the creation and update callbacks. */
    method RecordTags(details: seq<Details>, read: Reader)
      modifies this
      ensures files == Recording(old(files), details, read)
      ensures tags == old(tags)
    {
      var i := 0;
      while i < |details|
        invariant 0 <= i <= |details|
        invariant files == Recording(old(files), details[..i], read)
        invariant tags == old(tags)
      {
        assert details[..i + 1][..i] == details[..i];
        var d := details[i];
        if IsMarkdown(d.contentType) {
          files := files[d.identifier := TagsFor(d.url, read)];
        }
        i := i + 1;
      }
      assert details[..i] == details;
    }

    /** `updateTags()`: rebuild the prefix tree from the union of all files' tags. */
    method UpdateTags()
      requires scanner.Valid() && scanner.url == rootURL
      modifies this
      ensures Valid()
      ensures files == old(files) && fresh(tags)
    {
      var union: set<string> := {};
      var remaining := files.Keys;
      while remaining != {}
        invariant remaining <= files.Keys
        invariant union == set id, t | id in files.Keys - remaining && t in files[id] :: t
        decreases remaining
      {
        var id :| id in remaining;
        union := union + (set t | t in files[id]);
        remaining := remaining - {id};
      }
      var words: seq<string> := [];
      var left := union;
      while left != {}
        invariant left <= union
        invariant (set w | w in words) == union - left
        decreases left
      {
        var w :| w in left;
        assert (set x | x in words + [w]) == (set x | x in words) + {w};
        words := words + [w];
        left := left - {w};
      }
      tags := new Trie(words);
    }
  }
}
