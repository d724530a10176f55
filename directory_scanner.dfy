/**
 * The directory synchronisation state machine
 * (Thoughts/Utilities/DirectoryScanner.swift).
 *
 * The scanner owns a table from identifier to record. At start it reconciles
 * a caller-supplied snapshot against a fresh walk of the root; afterwards it
 * turns raw filesystem events into creation, update and deletion callbacks
 * and edits the table to match. The three callbacks are modelled as one log
 * of the batches delivered, in delivery order. The filesystem is an oracle
 * consulted at the moment an event is handled.
 */
module Scanner {
  import opened Wrappers
  import opened FileDetails
  import opened FileListing

  /** `FSEvent.ItemType`. */
  datatype ItemType = File | Dir | SymLink | HardLink

  /** The file events an FSEvents stream delivers. */
  datatype Event =
    | ItemClonedAtPath(path: Url, itemType: ItemType)
    | ItemCreated(path: Url, itemType: ItemType)
    | ItemRenamed(path: Url, itemType: ItemType)
    | ItemRemoved(path: Url, itemType: ItemType)
    | ItemInodeMetadataModified(path: Url, itemType: ItemType)
    | ItemDataModified(path: Url, itemType: ItemType)
    | ItemOwnershipModified(path: Url, itemType: ItemType)
    | ItemXattrModified(path: Url, itemType: ItemType)
    | OtherEvent(path: Url, itemType: ItemType)

  /**
   * The filesystem as the handler sees it when an event arrives: whether a
   * path exists, the resource values of a URL, and what the directory
   * enumerator yields below a directory.
   */
  datatype FileSystem = FileSystem(fileExists: Url -> bool,
                                   metadata: Url -> ResourceValues,
                                   enumerate: Url -> seq<Entry>)

  /** One call of `onFileCreation`, `onFileUpdate` or `onFileDeletion`. */
  datatype Batch =
    | Creation(files: seq<Details>)
    | Update(files: seq<Details>)
    | Deletion(identifiers: set<Identifier>)

  type Table = map<Identifier, Details>

  /** The scanner's table invariant: every key is the identifier of its record. */
  ghost predicate KeysMatch(m: Table)
  {
    forall k :: k in m ==> m[k].identifier == k
  }

  /** No two records of `s` share an identifier. */
  ghost predicate UniqueIdentifiers(s: seq<Details>)
  {
    forall i, j :: 0 <= i < j < |s| ==> s[i].identifier != s[j].identifier
  }

  /** The identifiers of the records in `s`. */
  ghost function IdentifiersOf(s: seq<Details>): set<Identifier>
  {
    set d | d in s :: d.identifier
  }

  /** The `reduce(into:)` map builder: each record under its identifier, later ones winning. */
  function IndexById(s: seq<Details>): (m: Table)
    ensures KeysMatch(m)
    ensures forall k :: k in m ==> m[k] in s
  {
    if s == [] then map[]
    else
      var last := s[|s| - 1];
      IndexById(s[..|s| - 1])[last.identifier := last]
  }

  /** The keys of the index are exactly the identifiers of the records. */
  lemma {:induction false} IndexByIdKeys(s: seq<Details>)
    ensures IndexById(s).Keys == IdentifiersOf(s)
  {
    if s != [] {
      var init := s[..|s| - 1];
      IndexByIdKeys(init);
      assert s == init + [s[|s| - 1]];
    }
  }

  /**
   * Indexing any enumeration of a well-formed table's records gives the
   * table back, so a snapshot saved from the table loads as the same table.
   */
  lemma IndexOfTableValues(m: Table, s: seq<Details>)
    requires KeysMatch(m)
    requires (set d | d in s) == m.Values
    ensures IndexById(s) == m
  {
    IndexByIdKeys(s);
    var ix := IndexById(s);
    forall k | k in m ensures k in ix {
      assert m[k] in m.Values;
      assert m[k] in s;
    }
    forall k | k in ix ensures k in m && ix[k] == m[k] {
      var d := ix[k];
      assert d in m.Values;
      var k' :| k' in m && m[k'] == d;
    }
  }

  // ---------------------------------------------------------------------------
  // Startup reconciliation
  // ---------------------------------------------------------------------------

  /** Snapshot identifiers that the current walk no longer has. */
  ghost function Deleted(snap: Table, current: seq<Details>): set<Identifier>
  {
    snap.Keys - IdentifiersOf(current)
  }

  /** The walked files the snapshot does not know, in walk order. */
  function Additions(snap: Table, current: seq<Details>): seq<Details>
  {
    if current == [] then []
    else
      var last := current[|current| - 1];
      Additions(snap, current[..|current| - 1]) + (if last.identifier in snap then [] else [last])
  }

  /** The snapshot records of changed files, with the walked modification time applied. */
  function Updates(snap: Table, current: seq<Details>): seq<Details>
  {
    if current == [] then []
    else
      var last := current[|current| - 1];
      Updates(snap, current[..|current| - 1]) +
        (if last.identifier in snap && !snap[last.identifier].Equivalent(last)
         then [snap[last.identifier].Applying(last)] else [])
  }

  /** The record the reconciled table keeps for a walked file. */
  function Merge(snap: Table, file: Details): (r: Details)
    ensures r.contentModificationDate == file.contentModificationDate
    ensures file.identifier in snap ==> r.identifier == snap[file.identifier].identifier && r.uuid == snap[file.identifier].uuid
    ensures file.identifier !in snap ==> r == file
  {
    if file.identifier !in snap then file
    else if snap[file.identifier].Equivalent(file) then snap[file.identifier]
    else snap[file.identifier].Applying(file)
  }

  /** The table reconciliation installs. */
  function Reconciled(snap: Table, current: seq<Details>): Table
  {
    if current == [] then map[]
    else
      var last := current[|current| - 1];
      Reconciled(snap, current[..|current| - 1])[last.identifier := Merge(snap, last)]
  }

  /** The callbacks reconciliation delivers: deletions, creations, updates, each only when non-empty. */
  ghost function StartupBatches(snap: Table, current: seq<Details>): seq<Batch>
  {
    var deleted := Deleted(snap, current);
    var additions := Additions(snap, current);
    var updates := Updates(snap, current);
    (if |deleted| > 0 then [Deletion(deleted)] else []) +
    (if |additions| > 0 then [Creation(additions)] else []) +
    (if |updates| > 0 then [Update(updates)] else [])
  }

  /** The body of the startup block: diff the snapshot table against the walk. */
  method Reconcile(snap: Table, current: seq<Details>)
    returns (deleted: set<Identifier>, additions: seq<Details>, updates: seq<Details>, state: Table)
    ensures deleted == Deleted(snap, current)
    ensures additions == Additions(snap, current)
    ensures updates == Updates(snap, current)
    ensures state == Reconciled(snap, current)
  {
    var currentIdentifiers := IndexById(current);
    IndexByIdKeys(current);
    deleted := snap.Keys - currentIdentifiers.Keys;
    additions, updates, state := [], [], map[];
    var i := 0;
    while i < |current|
      invariant 0 <= i <= |current|
      invariant additions == Additions(snap, current[..i])
      invariant updates == Updates(snap, current[..i])
      invariant state == Reconciled(snap, current[..i])
    {
      var file := current[i];
      assert current[..i + 1][..i] == current[..i];
      if file.identifier in snap {
        var snapshot := snap[file.identifier];
        if !snapshot.Equivalent(file) {
          var update := snapshot.Applying(file);
          updates := updates + [update];
          state := state[file.identifier := update];
        } else {
          state := state[file.identifier := snapshot];
        }
      } else {
        additions := additions + [file];
        state := state[file.identifier := file];
      }
      i := i + 1;
    }
    assert current[..i] == current;
  }

  /** The reconciled table is well formed and holds exactly the walked identifiers. */
  lemma {:induction false} ReconciledKeys(snap: Table, current: seq<Details>)
    requires KeysMatch(snap)
    ensures KeysMatch(Reconciled(snap, current))
    ensures Reconciled(snap, current).Keys == IdentifiersOf(current)
  {
    if current != [] {
      var init := current[..|current| - 1];
      ReconciledKeys(snap, init);
      assert current == init + [current[|current| - 1]];
    }
  }

  /** With unique identifiers, the table holds for each walked file its merged record. */
  lemma {:induction false} ReconciledAt(snap: Table, current: seq<Details>, i: nat)
    requires UniqueIdentifiers(current) && i < |current|
    ensures current[i].identifier in Reconciled(snap, current)
    ensures Reconciled(snap, current)[current[i].identifier] == Merge(snap, current[i])
  {
    var init := current[..|current| - 1];
    if i < |current| - 1 {
      ReconciledAt(snap, init, i);
    }
  }

  /** A file is an addition exactly when it was walked and the snapshot lacks it. */
  lemma {:induction false} AdditionsMembers(snap: Table, current: seq<Details>, d: Details)
    ensures d in Additions(snap, current) <==> d in current && d.identifier !in snap
  {
    if current != [] {
      var init := current[..|current| - 1];
      AdditionsMembers(snap, init, d);
      assert current == init + [current[|current| - 1]];
    }
  }

  /** Every update is a snapshot record, changed on disk, carrying the walked modification time. */
  lemma {:induction false} UpdatesMembers(snap: Table, current: seq<Details>, u: Details)
    ensures u in Updates(snap, current) <==>
      exists f :: f in current && f.identifier in snap && !snap[f.identifier].Equivalent(f)
                  && u == snap[f.identifier].Applying(f)
  {
    if current != [] {
      var init := current[..|current| - 1];
      UpdatesMembers(snap, init, u);
      assert current == init + [current[|current| - 1]];
    }
  }

  /**
   * What reconciliation does with each walked file: an unchanged file keeps
   * its snapshot record (and uuid) and produces no event; a changed one becomes
   * the snapshot record with the new time and is an update; an unknown one is
   * an addition stored as it is.
   */
  lemma ReconcileFile(snap: Table, current: seq<Details>, i: nat)
    requires KeysMatch(snap) && UniqueIdentifiers(current) && i < |current|
    ensures var f := current[i]; var state := Reconciled(snap, current);
      && f.identifier in state
      && (f.identifier in snap && snap[f.identifier].Equivalent(f) ==>
            state[f.identifier] == snap[f.identifier] && f !in Additions(snap, current)
            && snap[f.identifier].Applying(f) !in Updates(snap, current))
      && (f.identifier in snap && !snap[f.identifier].Equivalent(f) ==>
            state[f.identifier] == snap[f.identifier].Applying(f)
            && state[f.identifier].uuid == snap[f.identifier].uuid
            && state[f.identifier] in Updates(snap, current))
      && (f.identifier !in snap ==> state[f.identifier] == f && f in Additions(snap, current))
  {
    var f := current[i];
    ReconciledAt(snap, current, i);
    AdditionsMembers(snap, current, f);
    if f.identifier in snap {
      var s := snap[f.identifier];
      UpdatesMembers(snap, current, s.Applying(f));
    }
  }

  /** Two walks of the same files that differ at most in the fresh uuids each walk draws. */
  ghost predicate SameButUuids(a: seq<Details>, b: seq<Details>)
  {
    |a| == |b| && forall i :: 0 <= i < |a| ==> b[i] == a[i].(uuid := b[i].uuid)
  }

  /** Reconciliation ignores uuids: such walks give the same identifiers and updates and as many additions. */
  lemma {:induction false} WalksSameButUuids(t: Table, a: seq<Details>, b: seq<Details>)
    requires SameButUuids(a, b)
    ensures IdentifiersOf(b) == IdentifiersOf(a)
    ensures Updates(t, b) == Updates(t, a)
    ensures |Additions(t, b)| == |Additions(t, a)|
  {
    forall id | id in IdentifiersOf(b) ensures id in IdentifiersOf(a) {
      var d :| d in b && d.identifier == id;
      var j :| 0 <= j < |b| && b[j] == d;
      assert a[j] in a && a[j].identifier == id;
    }
    forall id | id in IdentifiersOf(a) ensures id in IdentifiersOf(b) {
      var d :| d in a && d.identifier == id;
      var j :| 0 <= j < |a| && a[j] == d;
      assert b[j] in b && b[j].identifier == id;
    }
    if a != [] {
      var n := |a| - 1;
      assert SameButUuids(a[..n], b[..n]);
      WalksSameButUuids(t, a[..n], b[..n]);
      assert b[n].identifier == a[n].identifier;
    }
  }

  /**
   * Reconciling again, with the installed table as the snapshot and a walk
   * of the same files (with fresh uuids), delivers nothing, provided no
   * tracked file changed its content type (a type change is never absorbed
   * by `applying`; see TypeChangeNeverSettles).
   */
  lemma ReconcileIdempotent(snap: Table, current: seq<Details>, saved: seq<Details>, again: seq<Details>)
    requires KeysMatch(snap) && UniqueIdentifiers(current)
    requires forall f :: f in current && f.identifier in snap ==> snap[f.identifier].contentType == f.contentType
    requires (set d | d in saved) == Reconciled(snap, current).Values
    requires SameButUuids(current, again)
    ensures StartupBatches(IndexById(saved), again) == []
  {
    var state := Reconciled(snap, current);
    ReconciledKeys(snap, current);
    IndexOfTableValues(state, saved);
    WalksSameButUuids(state, current, again);
    assert Deleted(state, current) == {};
    NoAdditionsAgainstReconciled(snap, current);
    NoUpdatesAgainstReconciled(snap, current);
  }

  /**
   * A tracked file whose content type changed is never settled: the installed
   * record keeps the old type, so the next start with the same walk reports
   * it as an update again and stores it unchanged, and so on every start.
   */
  lemma TypeChangeNeverSettles(snap: Table, current: seq<Details>, saved: seq<Details>, i: nat)
    requires KeysMatch(snap) && UniqueIdentifiers(current) && i < |current|
    requires current[i].identifier in snap && snap[current[i].identifier].contentType != current[i].contentType
    requires (set d | d in saved) == Reconciled(snap, current).Values
    ensures var id, again := current[i].identifier, IndexById(saved);
            && id in again && again[id].contentType == snap[id].contentType
            && again[id] in Updates(again, current)
            && StartupBatches(again, current) == [Update(Updates(again, current))]
            && id in Reconciled(again, current) && Reconciled(again, current)[id] == again[id]
  {
    var state := Reconciled(snap, current);
    ReconciledKeys(snap, current);
    IndexOfTableValues(state, saved);
    TypeChangeUpdatedAgain(snap, current, i);
    NoAdditionsAgainstReconciled(snap, current);
    assert Deleted(state, current) == {};
    OnlyUpdates(state, current);
  }

  /** With nothing deleted or added, the startup batches are the one update batch, when there is one. */
  lemma OnlyUpdates(t: Table, current: seq<Details>)
    requires Deleted(t, current) == {} && Additions(t, current) == []
    ensures StartupBatches(t, current) == if Updates(t, current) == [] then [] else [Update(Updates(t, current))]
  {
    assert |Deleted(t, current)| == 0;
  }

  /** The installed record of a file whose type changed is again an update, and merges to itself. */
  lemma TypeChangeUpdatedAgain(snap: Table, current: seq<Details>, i: nat)
    requires UniqueIdentifiers(current) && i < |current|
    requires current[i].identifier in snap && snap[current[i].identifier].contentType != current[i].contentType
    ensures var id, state := current[i].identifier, Reconciled(snap, current);
            && id in state && state[id].contentType == snap[id].contentType
            && state[id] in Updates(state, current)
            && id in Reconciled(state, current) && Reconciled(state, current)[id] == state[id]
  {
    var f := current[i];
    var state := Reconciled(snap, current);
    ReconciledAt(snap, current, i);
    var r := state[f.identifier];
    assert r == snap[f.identifier].Applying(f) && !r.Equivalent(f);
    UpdatesMembers(state, current, r.Applying(f));
    assert r.Applying(f) == r;
    ReconciledAt(state, current, i);
  }

  lemma NoAdditionsAgainstReconciled(snap: Table, current: seq<Details>)
    requires KeysMatch(snap)
    ensures Additions(Reconciled(snap, current), current) == []
  {
    var state := Reconciled(snap, current);
    ReconciledKeys(snap, current);
    if Additions(state, current) != [] {
      var a := Additions(state, current)[0];
      AdditionsMembers(state, current, a);
      assert false;
    }
  }

  lemma NoUpdatesAgainstReconciled(snap: Table, current: seq<Details>)
    requires KeysMatch(snap) && UniqueIdentifiers(current)
    requires forall f :: f in current && f.identifier in snap ==> snap[f.identifier].contentType == f.contentType
    ensures Updates(Reconciled(snap, current), current) == []
  {
    var state := Reconciled(snap, current);
    if Updates(state, current) != [] {
      var u := Updates(state, current)[0];
      UpdatesMembers(state, current, u);
      var f :| f in current && f.identifier in state && !state[f.identifier].Equivalent(f)
               && u == state[f.identifier].Applying(f);
      var i :| 0 <= i < |current| && current[i] == f;
      ReconciledAt(snap, current, i);
      if f.identifier in snap {
        ApplyingEquivalentIffSameType(snap[f.identifier], f);
      }
      assert false;
    }
  }

  /** With an empty snapshot every walked file arrives in one creation batch. */
  lemma EmptySnapshotCreatesAll(current: seq<Details>)
    ensures StartupBatches(map[], current) == if current == [] then [] else [Creation(current)]
  {
    EmptySnapshotNothingElse(current);
    assert Deleted(map[], current) == {};
  }

  lemma {:induction false} EmptySnapshotNothingElse(current: seq<Details>)
    ensures Additions(map[], current) == current
    ensures Updates(map[], current) == []
  {
    if current != [] {
      var init := current[..|current| - 1];
      EmptySnapshotNothingElse(init);
      assert current == init + [current[|current| - 1]];
    }
  }

  // ---------------------------------------------------------------------------
  // Live events
  // ---------------------------------------------------------------------------

  /** The tracked keys strictly below the directory at `path`. */
  function Subtree(m: Table, path: Url): (s: set<Identifier>)
    ensures s <= m.Keys
  {
    set k | k in m && path + "/" <= k.url
  }

  /** A tracked entry inside a directory, at any depth, is in its subtree. */
  lemma SubtreeHoldsChildren(m: Table, dir: Url, name: string)
    requires dir != [] && dir != "/"
    requires name != [] && forall j :: 0 <= j < |name| ==> name[j] != '/'
    ensures forall k :: k in m && k.url == dir + "/" + name ==> k in Subtree(m, dir) && k.Parent().url == dir
  {
    DeletingAppendedComponent(dir, name);
  }

  /** The scanner's table, the batches delivered and the uuid counter after one step. */
  datatype Step = Step(identifiers: Table, batches: seq<Batch>, nextUuid: Uuid)

  /** Data and inode-metadata modifications: update a tracked record, create an untracked one. */
  function Modified(m: Table, next: Uuid, owner: Url, path: Url, fs: FileSystem): Step
  {
    var id := Identifier(owner, path);
    var r := DetailsFor(path, owner, fs.metadata(path), next);
    if r.Failure? then Step(m, [], next)
    else if id in m then
      var updated := m[id].Applying(r.value);
      Step(m[id := updated], [Update([updated])], next + 1)
    else Step(m[id := r.value], [Creation([r.value])], next + 1)
  }

  /** The event handler installed on the stream, as a function of the table and the event. */
  function Handle(m: Table, next: Uuid, owner: Url, ev: Event, fs: FileSystem): Step
  {
    match ev
    case ItemCreated(path, _) =>
      var r := DetailsFor(path, owner, fs.metadata(path), next);
      if r.Failure? then Step(m, [], next)
      else if r.value.identifier in m then Step(m, [], next + 1)
      else Step(m[r.value.identifier := r.value], [Creation([r.value])], next + 1)
    case ItemRenamed(path, itemType) =>
      if fs.fileExists(path) then
        var r := DetailsFor(path, owner, fs.metadata(path), next);
        if r.Failure? then Step(m, [], next)
        else if r.value.identifier in m then
          var update := m[r.value.identifier].Applying(r.value);
          Step(m[r.value.identifier := update], [Update([update])], next + 1)
        else if itemType == Dir then
          var walk := Listing(path, Some(owner), fs.metadata(path), fs.enumerate(path), next + 1);
          if walk.Failure? then Step(m, [], next + 1)
          else Step(m + IndexById(walk.value), [Creation(walk.value)], next + 1 + |walk.value|)
        else Step(m[r.value.identifier := r.value], [Creation([r.value])], next + 1)
      else
        var id := Identifier(owner, path);
        var gone := if itemType == Dir then Subtree(m, path) + {id} else {id};
        Step(m - gone, [Deletion(gone)], next)
    case ItemRemoved(path, _) =>
      var id := Identifier(owner, path);
      Step(m - {id}, [Deletion({id})], next)
    case ItemInodeMetadataModified(path, _) => Modified(m, next, owner, path, fs)
    case ItemDataModified(path, _) => Modified(m, next, owner, path, fs)
    case _ => Step(m, [], next)
  }

  /** The table invariant survives every event. */
  lemma HandleKeepsKeysMatch(m: Table, next: Uuid, owner: Url, ev: Event, fs: FileSystem)
    requires KeysMatch(m)
    ensures KeysMatch(Handle(m, next, owner, ev, fs).identifiers)
  {
  }

  /** A creation event for a tracked identifier is a duplicate and is dropped; otherwise it is one creation. */
  lemma CreatedEvent(m: Table, next: Uuid, owner: Url, path: Url, t: ItemType, fs: FileSystem)
    ensures var s := Handle(m, next, owner, ItemCreated(path, t), fs);
            var r := DetailsFor(path, owner, fs.metadata(path), next);
            && (r.Failure? || Identifier(owner, path) in m ==> s.identifiers == m && s.batches == [])
            && (r.Success? && Identifier(owner, path) !in m ==>
                  s.batches == [Creation([r.value])] && s.identifiers == m[Identifier(owner, path) := r.value]
                  && r.value.uuid == next)
  {
  }

  /** A removal always reports exactly one deletion, and the key is gone afterwards. */
  lemma RemovedEvent(m: Table, next: Uuid, owner: Url, path: Url, t: ItemType, fs: FileSystem)
    ensures var s := Handle(m, next, owner, ItemRemoved(path, t), fs);
            && s.batches == [Deletion({Identifier(owner, path)})]
            && Identifier(owner, path) !in s.identifiers
            && s.identifiers == m - {Identifier(owner, path)}
  {
  }

  /**
   * A rename to a path that no longer exists is purely a deletion: of the
   * identifier and, for a directory, of every tracked key below it; all of
   * them leave the table and nothing else does.
   */
  lemma RenamedAway(m: Table, next: Uuid, owner: Url, path: Url, t: ItemType, fs: FileSystem)
    requires !fs.fileExists(path)
    ensures var s := Handle(m, next, owner, ItemRenamed(path, t), fs);
            var id := Identifier(owner, path);
            var gone := if t == Dir then Subtree(m, path) + {id} else {id};
            && s.batches == [Deletion(gone)]
            && s.identifiers == m - gone
            && s.nextUuid == next
            && id in gone
            && (t == Dir ==> forall k :: k in m && path + "/" <= k.url ==> k in gone)
            && (forall k :: k in gone && k != id ==> k in m && path + "/" <= k.url)
            && (forall k :: k in m && k !in gone ==> k in s.identifiers && s.identifiers[k] == m[k])
            && (forall k :: k in gone ==> k !in s.identifiers)
  {
  }

  /** A rename onto a tracked path is an atomic replace: exactly one update, keeping the old uuid. */
  lemma RenamedOntoTracked(m: Table, next: Uuid, owner: Url, path: Url, t: ItemType, fs: FileSystem)
    requires KeysMatch(m)
    requires fs.fileExists(path)
    requires DetailsFor(path, owner, fs.metadata(path), next).Success?
    requires Identifier(owner, path) in m
    ensures var s := Handle(m, next, owner, ItemRenamed(path, t), fs);
            var id := Identifier(owner, path);
            var d := DetailsFor(path, owner, fs.metadata(path), next).value;
            && |s.batches| == 1 && s.batches[0].Update? && |s.batches[0].files| == 1
            && s.batches[0].files[0].uuid == m[id].uuid
            && s.batches[0].files[0].identifier == id
            && s.batches[0].files[0].contentModificationDate == d.contentModificationDate
            && s.identifiers == m[id := s.batches[0].files[0]]
  {
  }

  /** A rename onto an existing path whose lookups fail is abandoned: nothing is delivered and nothing changes. */
  lemma RenamedLookupFails(m: Table, next: Uuid, owner: Url, path: Url, t: ItemType, fs: FileSystem)
    requires fs.fileExists(path)
    requires DetailsFor(path, owner, fs.metadata(path), next).Failure?
    ensures Handle(m, next, owner, ItemRenamed(path, t), fs) == Step(m, [], next)
  {
  }

  /**
   * A rename onto an untracked path is a creation: of every walked entry for
   * a directory (all inserted), of the one record for anything else.
   */
  lemma RenamedOntoUntracked(m: Table, next: Uuid, owner: Url, path: Url, t: ItemType, fs: FileSystem)
    requires fs.fileExists(path)
    requires DetailsFor(path, owner, fs.metadata(path), next).Success?
    requires Identifier(owner, path) !in m
    ensures var s := Handle(m, next, owner, ItemRenamed(path, t), fs);
            var d := DetailsFor(path, owner, fs.metadata(path), next).value;
            var walk := Listing(path, Some(owner), fs.metadata(path), fs.enumerate(path), next + 1);
            && (t == Dir && walk.Success? ==>
                  s.batches == [Creation(walk.value)]
                  && s.identifiers == m + IndexById(walk.value)
                  && s.nextUuid == next + 1 + |walk.value|
                  && (forall f :: f in walk.value ==> f.identifier in s.identifiers)
                  && (forall k :: k in m && k !in IdentifiersOf(walk.value) ==> k in s.identifiers && s.identifiers[k] == m[k]))
            && (t == Dir && walk.Failure? ==> s.batches == [] && s.identifiers == m && s.nextUuid == next + 1)
            && (t != Dir ==> s.batches == [Creation([d])] && s.identifiers == m[d.identifier := d] && s.nextUuid == next + 1)
  {
    var walk := Listing(path, Some(owner), fs.metadata(path), fs.enumerate(path), next + 1);
    if t == Dir && walk.Success? {
      IndexByIdKeys(walk.value);
    }
  }

  /**
   * Data and metadata modifications update a tracked record (same uuid) or
   * create an untracked one; a failed lookup changes nothing.
   */
  lemma ModifiedEvent(m: Table, next: Uuid, owner: Url, path: Url, t: ItemType, fs: FileSystem, ev: Event)
    requires ev == ItemDataModified(path, t) || ev == ItemInodeMetadataModified(path, t)
    ensures var s := Handle(m, next, owner, ev, fs);
            var id := Identifier(owner, path);
            var r := DetailsFor(path, owner, fs.metadata(path), next);
            && (r.Failure? ==> s.identifiers == m && s.batches == [])
            && (r.Success? && id in m ==>
                  s.batches == [Update([m[id].Applying(r.value)])] && s.identifiers[id].uuid == m[id].uuid
                  && s.identifiers == m[id := m[id].Applying(r.value)])
            && (r.Success? && id !in m ==> s.batches == [Creation([r.value])] && s.identifiers == m[id := r.value])
  {
  }

  /** Clone, ownership, extended-attribute and unknown events are ignored. */
  lemma IgnoredEvents(m: Table, next: Uuid, owner: Url, ev: Event, fs: FileSystem)
    requires || ev.ItemClonedAtPath? || ev.ItemOwnershipModified?
             || ev.ItemXattrModified? || ev.OtherEvent?
    ensures Handle(m, next, owner, ev, fs) == Step(m, [], next)
  {
  }

  /** The scanner of one root directory. */
  class DirectoryScanner {
    /** The watched root; it owns every record the scanner makes. */
    const url: Url
    /** `identifiers`, the table of tracked entries. */
    var identifiers: Table
    /** The callbacks delivered so far, in order. */
    var log: seq<Batch>
    /** Stands for `UUID()`: the next fresh uuid. */
    var nextUuid: Uuid

    ghost predicate Valid()
      reads this
    {
      KeysMatch(identifiers)
    }

    constructor (url: Url)
      ensures Valid()
      ensures this.url == url && identifiers == map[] && log == [] && nextUuid == 0
    {
      this.url := url;
      identifiers := map[];
      log := [];
      nextUuid := 0;
    }

    /**
     * The startup block: load the snapshot, walk the root, deliver deletions,
     * creations and updates, and install the reconciled table. The walk is
     * `try!` in the source, so a failing walk is excluded here.
     */
    method Start(snapshot: seq<Details>, fs: FileSystem)
      requires Valid()
      requires Listing(url, None, fs.metadata(url), fs.enumerate(url), nextUuid).Success?
      modifies this
      ensures Valid()
      ensures var current := Listing(url, None, fs.metadata(url), fs.enumerate(url), old(nextUuid)).value;
              && identifiers == Reconciled(IndexById(snapshot), current)
              && log == old(log) + StartupBatches(IndexById(snapshot), current)
              && nextUuid == old(nextUuid) + |current|
    {
      var current := Files(url, None, fs.metadata(url), fs.enumerate(url), nextUuid);
      var files := current.value;
      Install(IndexById(snapshot), files);
      nextUuid := nextUuid + |files|;
    }

    /** Deliver the startup batches for a walk and install the reconciled table. */
    method Install(snapshotIdentifiers: Table, files: seq<Details>)
      requires KeysMatch(snapshotIdentifiers)
      modifies this
      ensures Valid()
      ensures identifiers == Reconciled(snapshotIdentifiers, files)
      ensures log == old(log) + StartupBatches(snapshotIdentifiers, files)
      ensures nextUuid == old(nextUuid)
    {
      var deleted, additions, updates, state := Reconcile(snapshotIdentifiers, files);
      var delivered :=
        (if |deleted| > 0 then [Deletion(deleted)] else []) +
        (if |additions| > 0 then [Creation(additions)] else []) +
        (if |updates| > 0 then [Update(updates)] else []);
      log := log + delivered;
      ReconciledKeys(snapshotIdentifiers, files);
      identifiers := state;
    }

    /** The handler closure given to the event stream. */
    method HandleEvent(ev: Event, fs: FileSystem)
      requires Valid()
      modifies this
      ensures Valid()
      ensures var s := Handle(old(identifiers), old(nextUuid), url, ev, fs);
              identifiers == s.identifiers && log == old(log) + s.batches && nextUuid == s.nextUuid
    {
      HandleKeepsKeysMatch(identifiers, nextUuid, url, ev, fs);
      match ev {
        case ItemCreated(path, _) =>
          var r := DetailsFor(path, url, fs.metadata(path), nextUuid);
          if r.Failure? {
            return;
          }
          nextUuid := nextUuid + 1;
          var details := r.value;
          if details.identifier in identifiers {
            return;
          }
          log := log + [Creation([details])];
          identifiers := identifiers[details.identifier := details];
        case ItemRenamed(path, itemType) =>
          if fs.fileExists(path) {
            var r := DetailsFor(path, url, fs.metadata(path), nextUuid);
            if r.Failure? {
              return;
            }
            nextUuid := nextUuid + 1;
            var details := r.value;
            if details.identifier in identifiers {
              var update := identifiers[details.identifier].Applying(details);
              identifiers := identifiers[details.identifier := update];
              log := log + [Update([update])];
              return;
            }
            if itemType == Dir {
              var walk := Files(path, Some(url), fs.metadata(path), fs.enumerate(path), nextUuid);
              if walk.Failure? {
                return;
              }
              var files := walk.value;
              log := log + [Creation(files)];
              InsertAll(files);
            } else {
              log := log + [Creation([details])];
              identifiers := identifiers[details.identifier := details];
            }
          } else {
            var identifier := Identifier(url, path);
            if itemType == Dir {
              var gone := Subtree(identifiers, path) + {identifier};
              log := log + [Deletion(gone)];
              RemoveAll(gone);
            } else {
              log := log + [Deletion({identifier})];
              identifiers := identifiers - {identifier};
            }
          }
        case ItemRemoved(path, _) =>
          var identifier := Identifier(url, path);
          log := log + [Deletion({identifier})];
          identifiers := identifiers - {identifier};
        case ItemInodeMetadataModified(path, _) =>
          ApplyModification(path, fs);
        case ItemDataModified(path, _) =>
          ApplyModification(path, fs);
        case _ =>
      }
    }

    /** The shared body of the two modification cases. */
    method ApplyModification(path: Url, fs: FileSystem)
      modifies this
      ensures var s := Modified(old(identifiers), old(nextUuid), url, path, fs);
              identifiers == s.identifiers && log == old(log) + s.batches && nextUuid == s.nextUuid
    {
      var identifier := Identifier(url, path);
      var r := DetailsFor(path, url, fs.metadata(path), nextUuid);
      if r.Failure? {
        return;
      }
      nextUuid := nextUuid + 1;
      var details := r.value;
      if identifier in identifiers {
        var updated := identifiers[identifier].Applying(details);
        log := log + [Update([updated])];
        identifiers := identifiers[identifier := updated];
        return;
      }
      log := log + [Creation([details])];
      identifiers := identifiers[identifier := details];
    }

    /** The loop that stores every walked record under its identifier; advances the uuid counter past them. */
    method InsertAll(files: seq<Details>)
      modifies this
      ensures identifiers == old(identifiers) + IndexById(files)
      ensures log == old(log) && nextUuid == old(nextUuid) + |files|
    {
      var i := 0;
      while i < |files|
        invariant 0 <= i <= |files|
        invariant identifiers == old(identifiers) + IndexById(files[..i])
        invariant log == old(log) && nextUuid == old(nextUuid)
      {
        assert files[..i + 1][..i] == files[..i];
        identifiers := identifiers[files[i].identifier := files[i]];
        i := i + 1;
      }
      assert files[..i] == files;
      nextUuid := nextUuid + |files|;
    }

    /** The loop that drops every deleted identifier from the table. */
    method RemoveAll(gone: set<Identifier>)
      modifies this
      ensures identifiers == old(identifiers) - gone
      ensures log == old(log) && nextUuid == old(nextUuid)
    {
      var remaining := gone;
      while remaining != {}
        invariant remaining <= gone
        invariant identifiers == old(identifiers) - (gone - remaining)
        invariant log == old(log) && nextUuid == old(nextUuid)
        decreases remaining
      {
        var identifier :| identifier in remaining;
        identifiers := identifiers - {identifier};
        remaining := remaining - {identifier};
      }
    }
  }
}
