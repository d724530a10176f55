/**
 * Building `Details` from looked-up resource values, and the recursive
 * directory listing (Thoughts/Extensions/FileManager.swift).
 *
 * The URL resource lookups and the directory enumerator are foreign: each
 * lookup is given as a value (found, nil, or thrown), and the enumerator as
 * the sequence of entries it yields, in order. `UUID()` is replaced by
 * consecutive numbers starting at a caller-supplied fresh one.
 */
module FileListing {
  import opened Wrappers
  import opened FileDetails

  /** One resource-value lookup: a value, nil, or an error thrown. */
  datatype Lookup<T> = Found(value: T) | Absent | Failed

  /** The resource values of one URL; the date is already in milliseconds. */
  datatype ResourceValues = ResourceValues(isDirectory: Lookup<bool>,
                                           contentType: Lookup<ContentType>,
                                           contentModificationDate: Lookup<int>)

  /** `ThoughtsError.accessError`, or the error a lookup threw. */
  datatype Error = AccessError | LookupError

  /** One URL yielded by the directory enumerator, with its resource values. */
  datatype Entry = Entry(url: Url, values: ResourceValues)

  /** The error a lookup that did not produce a value propagates. */
  function LookupFailure<T>(l: Lookup<T>): Error
  {
    if l.Failed? then LookupError else AccessError
  }

  /** `details(for:owner:)`. */
  function DetailsFor(url: Url, owner: Url, values: ResourceValues, uuid: Uuid): (r: Result<Details, Error>)
    ensures r.Success? <==>
      values.isDirectory.Found? && values.contentType.Found? && values.contentModificationDate.Found?
    ensures r.Success? ==>
      && r.value.identifier == Identifier(owner, url)
      && r.value.uuid == uuid
      && r.value.contentModificationDate == values.contentModificationDate.value
      && (values.isDirectory.value ==> r.value.contentType == Directory)
      && (!values.isDirectory.value ==> r.value.contentType == values.contentType.value)
    ensures (r.Failure? && !values.isDirectory.Failed? && !values.contentType.Failed?
             && !values.contentModificationDate.Failed?) ==> r.error == AccessError
  {
    if !values.isDirectory.Found? then Failure(LookupFailure(values.isDirectory))
    else if !values.contentType.Found? then Failure(LookupFailure(values.contentType))
    else if !values.contentModificationDate.Found? then Failure(LookupFailure(values.contentModificationDate))
    else
      var contentType := if values.isDirectory.value then Directory else values.contentType.value;
      Success(Details(uuid, owner, url, contentType, values.contentModificationDate.value))
  }

  /**
   * The guard of the enumeration loop: the content type is looked up first,
   * then the date; nil skips the entry, a throw aborts the whole listing.
   */
  predicate Keeps(e: Entry)
  {
    e.values.contentType.Found? && e.values.contentModificationDate.Found?
  }

  predicate Aborts(e: Entry)
  {
    e.values.contentType.Failed? || (e.values.contentType.Found? && e.values.contentModificationDate.Failed?)
  }

  /** The record built for a kept enumerated entry; its content type is not remapped. */
  function EntryDetails(e: Entry, owner: Url, uuid: Uuid): Details
    requires Keeps(e)
  {
    Details(uuid, owner, e.url, e.values.contentType.value, e.values.contentModificationDate.value)
  }

  /** The entries the loop keeps, in enumeration order. */
  function Kept(entries: seq<Entry>): (k: seq<Entry>)
    ensures |k| <= |entries|
    ensures forall i :: 0 <= i < |k| ==> Keeps(k[i])
  {
    if entries == [] then []
    else
      var last := entries[|entries| - 1];
      Kept(entries[..|entries| - 1]) + (if Keeps(last) then [last] else [])
  }

  /** Some enumerated entry makes its lookups throw. */
  predicate AnyAborts(entries: seq<Entry>)
  {
    exists i :: 0 <= i < |entries| && Aborts(entries[i])
  }

  /**
   * The records the enumeration loop has gathered after `entries`, when none
   * aborted: the root's own record, then each kept entry with the next uuid.
   */
  function Listed(root: Details, entries: seq<Entry>, owner: Url, firstUuid: Uuid): (files: seq<Details>)
    ensures |files| >= 1 && files[0] == root
  {
    if entries == [] then [root]
    else
      var previous := Listed(root, entries[..|entries| - 1], owner, firstUuid);
      var last := entries[|entries| - 1];
      if Keeps(last) then previous + [EntryDetails(last, owner, firstUuid + |previous|)] else previous
  }

  /**
   * What `files(directoryURL:ownerURL:)` returns: the root's own record
   * first, then one record per kept entry with fresh consecutive uuids, or
   * the first error raised.
   */
  function Listing(directoryURL: Url, ownerURL: Option<Url>, rootValues: ResourceValues,
                   entries: seq<Entry>, firstUuid: Uuid): (r: Result<seq<Details>, Error>)
    ensures var owner := if ownerURL.Some? then ownerURL.value else directoryURL;
            var root := DetailsFor(directoryURL, owner, rootValues, firstUuid);
            && (r.Success? <==> root.Success? && !AnyAborts(entries))
            && (root.Failure? ==> r == Failure(root.error))
            && (root.Success? && AnyAborts(entries) ==> r == Failure(LookupError))
  {
    var owner := if ownerURL.Some? then ownerURL.value else directoryURL;
    var root := DetailsFor(directoryURL, owner, rootValues, firstUuid);
    if root.Failure? then Failure(root.error)
    else if AnyAborts(entries) then Failure(LookupError)
    else
      Success(Listed(root.value, entries, owner, firstUuid))
  }

  /** One more enumerated entry: the loop's records grow by its record exactly when it is kept. */
  lemma EntryStep(root: Details, entries: seq<Entry>, i: nat, owner: Url, firstUuid: Uuid)
    requires i < |entries|
    ensures var previous := Listed(root, entries[..i], owner, firstUuid);
            Listed(root, entries[..i + 1], owner, firstUuid)
              == if Keeps(entries[i]) then previous + [EntryDetails(entries[i], owner, firstUuid + |previous|)] else previous
  {
    assert entries[..i + 1][..i] == entries[..i];
  }

  /** `files(directoryURL:ownerURL:)`, the loop over the enumerator's output. */
  method Files(directoryURL: Url, ownerURL: Option<Url>, rootValues: ResourceValues,
               entries: seq<Entry>, firstUuid: Uuid) returns (r: Result<seq<Details>, Error>)
    ensures r == Listing(directoryURL, ownerURL, rootValues, entries, firstUuid)
  {
    var owner := if ownerURL.Some? then ownerURL.value else directoryURL;
    var root := DetailsFor(directoryURL, owner, rootValues, firstUuid);
    if root.Failure? {
      return Failure(root.error);
    }
    var files := [root.value];
    var i := 0;
    while i < |entries|
      invariant 0 <= i <= |entries|
      invariant forall k :: 0 <= k < i ==> !Aborts(entries[k])
      invariant files == Listed(root.value, entries[..i], owner, firstUuid)
    {
      var e := entries[i];
      EntryStep(root.value, entries, i, owner, firstUuid);
      if e.values.contentType.Failed? {
        assert Aborts(entries[i]);
        return Failure(LookupError);
      }
      if e.values.contentType.Absent? {
        i := i + 1;
        continue;
      }
      if e.values.contentModificationDate.Failed? {
        assert Aborts(entries[i]);
        return Failure(LookupError);
      }
      if e.values.contentModificationDate.Absent? {
        i := i + 1;
        continue;
      }
      files := files + [EntryDetails(e, owner, firstUuid + |files|)];
      i := i + 1;
    }
    assert entries[..i] == entries;
    r := Success(files);
  }

  /** An entry is kept exactly when it was enumerated and has both lookups. */
  lemma {:induction false} KeptMembers(entries: seq<Entry>, e: Entry)
    ensures e in Kept(entries) <==> e in entries && Keeps(e)
  {
    if entries != [] {
      var init := entries[..|entries| - 1];
      KeptMembers(init, e);
      assert entries == init + [entries[|entries| - 1]];
    }
  }

  /** Kept entries keep their enumeration order. */
  lemma {:induction false} KeptIsSubsequence(entries: seq<Entry>, i: nat, j: nat)
    requires i < j < |Kept(entries)|
    ensures exists a, b :: 0 <= a < b < |entries| && entries[a] == Kept(entries)[i] && entries[b] == Kept(entries)[j]
  {
    var init := entries[..|entries| - 1];
    var last := entries[|entries| - 1];
    if j < |Kept(init)| {
      KeptIsSubsequence(init, i, j);
      var a, b :| 0 <= a < b < |init| && init[a] == Kept(init)[i] && init[b] == Kept(init)[j];
      assert entries[a] == init[a] && entries[b] == init[b];
    } else {
      assert Kept(entries)[j] == last;
      assert Kept(entries)[i] == Kept(init)[i];
      KeptMembers(init, Kept(init)[i]);
      var a :| 0 <= a < |init| && init[a] == Kept(init)[i];
      assert entries[a] == init[a];
    }
  }

  /**
   * After the root's record, the loop's records follow the kept entries in
   * order, each with the entry's URL, content type and date, the owner, and
   * the next uuid.
   */
  lemma {:induction false} ListedFollowsKept(root: Details, entries: seq<Entry>, owner: Url, firstUuid: Uuid)
    ensures |Listed(root, entries, owner, firstUuid)| == 1 + |Kept(entries)|
    ensures forall j :: 0 <= j < |Kept(entries)| ==>
      Listed(root, entries, owner, firstUuid)[1 + j] == EntryDetails(Kept(entries)[j], owner, firstUuid + 1 + j)
  {
    if entries != [] {
      var init := entries[..|entries| - 1];
      ListedFollowsKept(root, init, owner, firstUuid);
      var previous, files := Listed(root, init, owner, firstUuid), Listed(root, entries, owner, firstUuid);
      var keptBefore, kept := Kept(init), Kept(entries);
      forall j | 0 <= j < |kept|
        ensures files[1 + j] == EntryDetails(kept[j], owner, firstUuid + 1 + j)
      {
        if j < |keptBefore| {
          assert files[1 + j] == previous[1 + j] && kept[j] == keptBefore[j];
        }
      }
    }
  }

  /**
   * After the root, the records follow the kept entries in order: each has
   * the entry's URL, content type and date, the owner, and the next uuid.
   */
  lemma ListingEntries(directoryURL: Url, ownerURL: Option<Url>, rootValues: ResourceValues,
                       entries: seq<Entry>, firstUuid: Uuid)
    requires Listing(directoryURL, ownerURL, rootValues, entries, firstUuid).Success?
    ensures var files := Listing(directoryURL, ownerURL, rootValues, entries, firstUuid).value;
            var owner := if ownerURL.Some? then ownerURL.value else directoryURL;
            && |files| == 1 + |Kept(entries)|
            && forall j :: 0 <= j < |Kept(entries)| ==>
              files[1 + j] == Details(firstUuid + 1 + j, owner, Kept(entries)[j].url,
                                      Kept(entries)[j].values.contentType.value,
                                      Kept(entries)[j].values.contentModificationDate.value)
  {
    var owner := if ownerURL.Some? then ownerURL.value else directoryURL;
    ListedFollowsKept(DetailsFor(directoryURL, owner, rootValues, firstUuid).value, entries, owner, firstUuid);
  }

  /** Every record of a listing has the listing's owner. */
  lemma ListingOwner(directoryURL: Url, ownerURL: Option<Url>, rootValues: ResourceValues,
                     entries: seq<Entry>, firstUuid: Uuid)
    requires Listing(directoryURL, ownerURL, rootValues, entries, firstUuid).Success?
    ensures var files := Listing(directoryURL, ownerURL, rootValues, entries, firstUuid).value;
            forall d :: d in files ==> d.ownerURL == (if ownerURL.Some? then ownerURL.value else directoryURL)
  {
    var owner := if ownerURL.Some? then ownerURL.value else directoryURL;
    var root := DetailsFor(directoryURL, owner, rootValues, firstUuid).value;
    var files := Listing(directoryURL, ownerURL, rootValues, entries, firstUuid).value;
    ListedFollowsKept(root, entries, owner, firstUuid);
    forall d | d in files ensures d.ownerURL == owner {
      var i :| 0 <= i < |files| && files[i] == d;
      if i > 0 {
        assert files[1 + (i - 1)] == EntryDetails(Kept(entries)[i - 1], owner, firstUuid + 1 + (i - 1));
      }
    }
  }

  /** Every record of a listing has its own fresh uuid, at least `firstUuid`. */
  lemma ListingUuidsFresh(directoryURL: Url, ownerURL: Option<Url>, rootValues: ResourceValues,
                          entries: seq<Entry>, firstUuid: Uuid)
    requires Listing(directoryURL, ownerURL, rootValues, entries, firstUuid).Success?
    ensures var files := Listing(directoryURL, ownerURL, rootValues, entries, firstUuid).value;
            forall i :: 0 <= i < |files| ==> files[i].uuid == firstUuid + i
  {
    var owner := if ownerURL.Some? then ownerURL.value else directoryURL;
    var root := DetailsFor(directoryURL, owner, rootValues, firstUuid).value;
    var files := Listing(directoryURL, ownerURL, rootValues, entries, firstUuid).value;
    ListedFollowsKept(root, entries, owner, firstUuid);
    forall i | 0 <= i < |files| ensures files[i].uuid == firstUuid + i {
      if i > 0 {
        assert files[1 + (i - 1)] == EntryDetails(Kept(entries)[i - 1], owner, firstUuid + 1 + (i - 1));
      }
    }
  }
}
