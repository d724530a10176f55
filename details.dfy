/**
 * The immutable record the directory scanner keeps for every file and
 * directory it tracks (Thoughts/Utilities/Details.swift).
 *
 * URLs are modelled by their path strings; two URLs are equal exactly when
 * their paths are. UTType is reduced to the three classes the core tells
 * apart: directories, Markdown documents and everything else.
 */
module FileDetails {

  /** A file URL, represented by its path. */
  type Url = string

  /** A UUID; the model draws them from a counter, so they are numbers. */
  type Uuid = nat

  /** The uniform type of an entry, as far as the core cares about it. */
  datatype ContentType = Directory | Markdown | OtherType(name: string)

  /** `contentType.conforms(to: .markdown)`. */
  predicate IsMarkdown(t: ContentType)
  {
    t.Markdown?
  }

  /** Index of the last '/' in `p`, or -1 when there is none. */
  function LastSlash(p: Url): (i: int)
    ensures -1 <= i < |p|
    ensures i >= 0 ==> p[i] == '/'
    ensures forall j :: i < j < |p| ==> p[j] != '/'
  {
    if p == [] then -1
    else if p[|p| - 1] == '/' then |p| - 1
    else LastSlash(p[..|p| - 1])
  }

  /**
   * `URL.deletingLastPathComponent()` on a path without a trailing slash:
   * everything before the last '/', the root "/" when that is the only
   * slash, and "" for a bare name.
   */
  function DeletingLastPathComponent(p: Url): Url
  {
    var i := LastSlash(p);
    if i < 0 then "" else if i == 0 then "/" else p[..i]
  }

  /** Appending a component to a directory and deleting it again gives the directory back. */
  lemma {:induction false} DeletingAppendedComponent(dir: Url, name: string)
    requires dir != [] && dir != "/"
    requires name != [] && forall j :: 0 <= j < |name| ==> name[j] != '/'
    ensures DeletingLastPathComponent(dir + "/" + name) == dir
    ensures |dir + "/"| <= |dir + "/" + name| && (dir + "/" + name)[..|dir + "/"|] == dir + "/"
  {
    var p := dir + "/" + name;
    assert p[|dir|] == '/';
    assert forall j :: |dir| < j < |p| ==> p[j] == name[j - |dir| - 1];
    LastSlashIsLast(p, |dir|);
    assert p[..|dir|] == dir;
  }

  /** A '/' at `k` with none after it is what LastSlash finds. */
  lemma {:induction false} LastSlashIsLast(p: Url, k: int)
    requires 0 <= k < |p| && p[k] == '/'
    requires forall j :: k < j < |p| ==> p[j] != '/'
    ensures LastSlash(p) == k
  {
    if p[|p| - 1] != '/' {
      LastSlashIsLast(p[..|p| - 1], k);
    }
  }

  /** `Details.Identifier`: the pair that names a tracked entry. */
  datatype Identifier = Identifier(ownerURL: Url, url: Url)
  {
    /** The identifier of the enclosing directory, in the same owner. */
    function Parent(): (p: Identifier)
      ensures p.ownerURL == ownerURL
      ensures |p.url| <= |url|
    {
      Identifier(ownerURL, DeletingLastPathComponent(url))
    }
  }

  /**
   * `Details`. The modification time is an integer number of milliseconds
   * since the reference date, so comparing two of them is exact.
   */
  datatype Details = Details(uuid: Uuid, ownerURL: Url, url: Url, contentType: ContentType,
                             contentModificationDate: int)
  {
    /** Set once by the initialiser from the owner and the URL. */
    const identifier: Identifier := Identifier(ownerURL, url)

    /** `parentURL`. */
    function ParentURL(): (r: Url)
      ensures |r| <= |url|
      ensures r == "" <==> forall j :: 0 <= j < |url| ==> url[j] != '/'
    {
      DeletingLastPathComponent(url)
    }

    /** `setting(ownerURL:)`: the same record under another owner. */
    function Setting(newOwner: Url): (r: Details)
      ensures r.identifier == Identifier(newOwner, url)
    {
      Details(uuid, newOwner, url, contentType, contentModificationDate)
    }

    /** `equivalent(to:)`, the change-detection test; the uuid plays no part. */
    predicate Equivalent(other: Details)
    {
      && ownerURL == other.ownerURL
      && url == other.url
      && contentType == other.contentType
      && contentModificationDate == other.contentModificationDate
    }

    /** `applying(details:)`: keep this record's identity, take the other's modification time. */
    function Applying(other: Details): (r: Details)
      ensures r.identifier == identifier && r.uuid == uuid
    {
      Details(uuid, ownerURL, url, contentType, other.contentModificationDate)
    }
  }

  /** Two records have the same identifier exactly when owner and URL agree. */
  lemma IdentifierIsOwnerAndUrl(a: Details, b: Details)
    ensures a.identifier == b.identifier <==> a.ownerURL == b.ownerURL && a.url == b.url
    ensures a.identifier.ownerURL == a.ownerURL && a.identifier.url == a.url
  {
  }

  /** `parent` keeps the owner and drops the last component; `parentURL` is its URL. */
  lemma ParentOfIdentifier(d: Details)
    ensures d.identifier.Parent() == Identifier(d.ownerURL, d.ParentURL())
  {
  }

  /** `setting(ownerURL:)` changes the owner and nothing else. */
  lemma SettingChangesOnlyOwner(d: Details, owner: Url)
    ensures d.Setting(owner) == d.(ownerURL := owner)
    ensures d.Setting(owner).identifier == d.identifier <==> owner == d.ownerURL
    ensures d.Setting(d.ownerURL) == d
  {
  }

  /** Equivalence is equality up to the uuid. */
  lemma EquivalentIsEqualityUpToUuid(a: Details, b: Details)
    ensures a.Equivalent(b) <==> a.(uuid := b.uuid) == b
    ensures a.contentModificationDate != b.contentModificationDate ==> !a.Equivalent(b)
  {
  }

  /** Equivalence is reflexive, symmetric and transitive. */
  lemma EquivalenceRelation(a: Details, b: Details, c: Details)
    ensures a.Equivalent(a)
    ensures a.Equivalent(b) ==> b.Equivalent(a)
    ensures a.Equivalent(b) && b.Equivalent(c) ==> a.Equivalent(c)
  {
  }

  /** Equivalent records have the same identifier. */
  lemma EquivalentSameIdentifier(a: Details, b: Details)
    requires a.Equivalent(b)
    ensures a.identifier == b.identifier
  {
  }

  /** `applying` replaces the modification time and keeps every other field. */
  lemma ApplyingTakesOnlyModificationDate(x: Details, d: Details)
    ensures x.Applying(d) == x.(contentModificationDate := d.contentModificationDate)
    ensures x.Applying(x) == x
    ensures x.Applying(d).Applying(d) == x.Applying(d)
  {
  }

  /**
   * For records with one identifier, applying `d` yields a record equivalent
   * to `d` exactly when the content types agree: a change of content type is
   * never absorbed.
   */
  lemma ApplyingEquivalentIffSameType(x: Details, d: Details)
    requires x.identifier == d.identifier
    ensures x.Applying(d).Equivalent(d) <==> x.contentType == d.contentType
  {
  }
}
