/**
 * A journal entry (Thoughts/Model/Document.swift): its emptiness, the tag
 * string split into tags, the front-matter header, and `sync(to:)`, which
 * writes the entry to a Markdown file named after its date or removes that
 * file when the entry is empty.
 *
 * The YAML encoder and the date formatter are foreign: they are the
 * parameters `encode` and `filename`. `Location.swift` is not part of this
 * model, so a document is generic in its location type `L`. A date is an
 * instant `Instant`; the current time zone is the parameter `zone`.
 */
module Documents {
  import opened Wrappers

  type Url = string

  /** Stands for Foundation's `Date`. */
  type Instant = int

  /** `Document`. */
  datatype Document<L> = Document(date: Instant, content: string, tags: string, location: Option<L>)
  {
    /** `isEmpty`. */
    predicate IsEmpty()
    {
      content == []
    }
  }

  /** `init(date:)`: no content, no tags, no location. */
  function NewDocument<L>(date: Instant): (d: Document<L>)
    ensures d.date == date && d.IsEmpty() && d.tags == [] && d.location == None
  {
    Document(date, [], [], None)
  }

  /** `RegionalDate`: an instant with the zone it was written in. */
  datatype RegionalDate = RegionalDate(date: Instant, timeZone: int)

  /** `Metadata`: what the header encodes. */
  datatype Metadata<L> = Metadata(date: RegionalDate, tags: seq<string>, location: Option<L>)

  /** `\s`: the characters with the Unicode White_Space property. */
  predicate IsWhitespace(c: char)
  {
    || ('\U{0009}' <= c <= '\U{000D}') || c == ' ' || c == '\U{0085}' || c == '\U{00A0}' || c == '\U{1680}'
    || ('\U{2000}' <= c <= '\U{200A}') || c == '\U{2028}' || c == '\U{2029}' || c == '\U{202F}'
    || c == '\U{205F}' || c == '\U{3000}'
  }

  predicate IsWord(t: string)
  {
    t != [] && forall i :: 0 <= i < |t| ==> !IsWhitespace(t[i])
  }

  /** The length of the run of non-whitespace characters `s` starts with. */
  function WordLength(s: string): (n: nat)
    ensures n <= |s|
    ensures forall i :: 0 <= i < n ==> !IsWhitespace(s[i])
    ensures n == |s| || IsWhitespace(s[n])
  {
    if s == [] || IsWhitespace(s[0]) then 0 else 1 + WordLength(s[1..])
  }

  /** `split(separator: /\s+/)`: the maximal runs of non-whitespace, in order. */
  function Tokens(s: string): (ts: seq<string>)
    ensures forall i :: 0 <= i < |ts| ==> IsWord(ts[i])
    decreases |s|
  {
    if s == [] then []
    else if IsWhitespace(s[0]) then Tokens(s[1..])
    else
      var n := WordLength(s);
      [s[..n]] + Tokens(s[n..])
  }

  /** The characters of `s` that are not whitespace, in order. */
  function NonWhitespace(s: string): string
  {
    if s == [] then []
    else (if IsWhitespace(s[0]) then [] else [s[0]]) + NonWhitespace(s[1..])
  }

  function Concat(ts: seq<string>): string
  {
    if ts == [] then [] else ts[0] + Concat(ts[1..])
  }

  /** The words joined with single spaces. */
  function JoinWords(ts: seq<string>): string
  {
    if ts == [] then []
    else if |ts| == 1 then ts[0]
    else ts[0] + " " + JoinWords(ts[1..])
  }

  lemma {:induction false} NonWhitespaceAppend(a: string, b: string)
    ensures NonWhitespace(a + b) == NonWhitespace(a) + NonWhitespace(b)
    decreases |a|
  {
    if a != [] {
      NonWhitespaceAppend(a[1..], b);
      assert (a + b)[1..] == a[1..] + b;
    } else {
      assert a + b == b;
    }
  }

  lemma {:induction false} NonWhitespaceOfWord(t: string)
    requires forall i :: 0 <= i < |t| ==> !IsWhitespace(t[i])
    ensures NonWhitespace(t) == t
    decreases |t|
  {
    if t != [] {
      NonWhitespaceOfWord(t[1..]);
    }
  }

  /** The tags hold every non-whitespace character of the string, in order, and nothing else. */
  lemma {:induction false} TokensKeepCharacters(s: string)
    ensures Concat(Tokens(s)) == NonWhitespace(s)
    decreases |s|
  {
    if s != [] {
      if IsWhitespace(s[0]) {
        TokensKeepCharacters(s[1..]);
      } else {
        var n := WordLength(s);
        TokensKeepCharacters(s[n..]);
        assert s == s[..n] + s[n..];
        NonWhitespaceAppend(s[..n], s[n..]);
        NonWhitespaceOfWord(s[..n]);
        assert ([s[..n]] + Tokens(s[n..]))[1..] == Tokens(s[n..]);
      }
    }
  }

  /** A string of whitespace only has no tags, and only such a string has none. */
  lemma {:induction false} NoTokensIffBlank(s: string)
    ensures Tokens(s) == [] <==> forall i :: 0 <= i < |s| ==> IsWhitespace(s[i])
    decreases |s|
  {
    if s != [] {
      NoTokensIffBlank(s[1..]);
      assert forall i :: 1 <= i < |s| ==> s[i] == s[1..][i - 1];
    }
  }

  /** Whitespace in front of a string does not change its tags. */
  lemma {:induction false} TokensAfterBlank(w: string, s: string)
    requires forall i :: 0 <= i < |w| ==> IsWhitespace(w[i])
    ensures Tokens(w + s) == Tokens(s)
    decreases |w|
  {
    if w != [] {
      assert (w + s)[1..] == w[1..] + s;
      TokensAfterBlank(w[1..], s);
    } else {
      assert w + s == s;
    }
  }

  /** A word followed by whitespace or the end is one tag. */
  lemma TokensOfWord(t: string, rest: string)
    requires IsWord(t) && (rest == [] || IsWhitespace(rest[0]))
    ensures Tokens(t + rest) == [t] + Tokens(rest)
  {
    var s := t + rest;
    WordOfPrefix(t, rest);
    assert s[..|t|] == t && s[|t|..] == rest;
  }

  lemma {:induction false} WordOfPrefix(t: string, rest: string)
    requires forall i :: 0 <= i < |t| ==> !IsWhitespace(t[i])
    requires rest == [] || IsWhitespace(rest[0])
    ensures WordLength(t + rest) == |t|
    decreases |t|
  {
    if t != [] {
      assert (t + rest)[1..] == t[1..] + rest;
      WordOfPrefix(t[1..], rest);
    } else {
      assert t + rest == rest;
    }
  }

  /** Tags written out with single spaces split back into the same tags. */
  lemma {:induction false} TokensOfJoined(ts: seq<string>)
    requires forall i :: 0 <= i < |ts| ==> IsWord(ts[i])
    ensures Tokens(JoinWords(ts)) == ts
    decreases |ts|
  {
    if |ts| == 1 {
      TokensOfWord(ts[0], []);
      assert ts[0] + [] == ts[0];
    } else if |ts| > 1 {
      var rest := JoinWords(ts[1..]);
      TokensOfJoined(ts[1..]);
      assert ts[0] + " " + rest == ts[0] + (" " + rest);
      TokensOfWord(ts[0], " " + rest);
      TokensAfterBlank(" ", rest);
    }
  }

  /** The metadata `header()` hands to the encoder. */
  function HeaderMetadata<L>(doc: Document<L>, zone: int): (m: Metadata<L>)
    ensures m.date.date == doc.date && m.date.timeZone == zone
    ensures m.tags == Tokens(doc.tags) && m.location == doc.location
  {
    Metadata(RegionalDate(doc.date, zone), Tokens(doc.tags), doc.location)
  }

  /** The front-matter fences around an encoded block. */
  function Frame(frontmatter: string): (h: string)
    ensures |h| == |frontmatter| + 9
  {
    "---\n" + frontmatter + "\n---\n"
  }

  /** Reading the encoded block back out of a header. */
  function Unframe(h: string): Option<string>
  {
    if |h| >= 9 && h[..4] == "---\n" && h[|h| - 5..] == "\n---\n" then Some(h[4..|h| - 5]) else None
  }

  lemma UnframeFrame(frontmatter: string)
    ensures Unframe(Frame(frontmatter)) == Some(frontmatter)
  {
    var h := Frame(frontmatter);
    assert h[..4] == "---\n";
    assert h[|h| - 5..] == "\n---\n";
    assert h[4..|h| - 5] == frontmatter;
  }

  /** `header()`: the framed encoding of the metadata, or nothing when encoding throws. */
  function Header<L>(doc: Document<L>, zone: int, encode: Metadata<L> -> Option<string>): (h: string)
    ensures encode(HeaderMetadata(doc, zone)).None? ==> h == []
    ensures encode(HeaderMetadata(doc, zone)).Some? ==> Unframe(h) == encode(HeaderMetadata(doc, zone))
  {
    match encode(HeaderMetadata(doc, zone)) {
      case None => []
      case Some(frontmatter) => UnframeFrame(frontmatter); Frame(frontmatter)
    }
  }

  /** `rootURL.appendingPathComponent(filename).appendingPathExtension("md")`. */
  function TargetURL(rootURL: Url, filename: string): (u: Url)
    ensures |u| == |rootURL| + |filename| + 4
    ensures u[..|rootURL|] == rootURL && u[|rootURL|] == '/'
    ensures u[|rootURL| + 1..|u| - 3] == filename && u[|u| - 3..] == ".md"
  {
    rootURL + "/" + filename + ".md"
  }

  /** The files the store holds after a successful sync. */
  function Synced<L>(files: map<Url, string>, doc: Document<L>, target: Url, zone: int,
                     encode: Metadata<L> -> Option<string>): map<Url, string>
  {
    if doc.IsEmpty() then files - {target}
    else files[target := Header(doc, zone, encode) + doc.content]
  }

  /** An empty document only ever removes its file, whatever else it holds. */
  lemma EmptyDocumentNeverWrites<L>(files: map<Url, string>, doc: Document<L>, target: Url, zone: int,
                                    encode: Metadata<L> -> Option<string>)
    requires doc.IsEmpty()
    ensures target !in Synced(files, doc, target, zone, encode)
    ensures forall u :: u != target ==> (u in Synced(files, doc, target, zone, encode) <==> u in files)
    ensures Synced(files, doc, target, zone, encode).Values <= files.Values
  {
  }

  /** A fresh document never creates a file. */
  lemma NewDocumentNeverWrites<L>(files: map<Url, string>, date: Instant, target: Url, zone: int,
                                  encode: Metadata<L> -> Option<string>)
    ensures Synced(files, NewDocument<L>(date), target, zone, encode) == files - {target}
  {
  }

  /** A non-empty document's file holds its header and then its content, and ends with that content. */
  lemma WrittenFileHoldsContent<L>(files: map<Url, string>, doc: Document<L>, target: Url, zone: int,
                                   encode: Metadata<L> -> Option<string>)
    requires !doc.IsEmpty()
    ensures var after := Synced(files, doc, target, zone, encode);
            && target in after
            && after[target][|after[target]| - |doc.content|..] == doc.content
            && after[target][..|after[target]| - |doc.content|] == Header(doc, zone, encode)
            && forall u :: u != target ==> (u in after <==> u in files) && (u in files ==> after[u] == files[u])
  {
    var written := Header(doc, zone, encode) + doc.content;
    assert written[|written| - |doc.content|..] == doc.content;
    assert written[..|written| - |doc.content|] == Header(doc, zone, encode);
  }

  /** Why a file operation threw. */
  datatype IoError = RemoveFailed | WriteFailed

  /** The file system the document is synced to, as a map from file URLs to their text. */
  class FileStore {
    var files: map<Url, string>

    constructor (files: map<Url, string>)
      ensures this.files == files
    {
      this.files := files;
    }

    /** `fileExists(atPath:)`. */
    function FileExists(url: Url): (b: bool)
      reads this
      ensures b <==> url in files
    {
      url in files
    }

    /** `removeItem(at:)`; `ok` says whether the system call succeeded. */
    method RemoveItem(url: Url, ok: bool) returns (r: Result<(), IoError>)
      modifies this
      ensures r.Success? <==> ok
      ensures files == if ok then old(files) - {url} else old(files)
    {
      if !ok {
        return Failure(RemoveFailed);
      }
      files := files - {url};
      return Success(());
    }

    /** `write(to:atomically:encoding:)`: all or nothing. */
    method Write(url: Url, text: string, ok: bool) returns (r: Result<(), IoError>)
      modifies this
      ensures r.Success? <==> ok
      ensures files == if ok then old(files)[url := text] else old(files)
    {
      if !ok {
        return Failure(WriteFailed);
      }
      files := files[url := text];
      return Success(());
    }
  }

  /**
   * `sync(to:)`: remove the file of an empty document if there is one,
   * otherwise write the header and the content. `ioSucceeds` says whether
   * the file operation it makes succeeds.
   */
  method Sync<L>(doc: Document<L>, rootURL: Url, filename: Instant -> string, zone: int,
                 encode: Metadata<L> -> Option<string>, store: FileStore, ioSucceeds: bool)
    returns (r: Result<(), IoError>)
    modifies store
    ensures var target := TargetURL(rootURL, filename(doc.date));
            && (r.Success? ==> store.files == Synced(old(store.files), doc, target, zone, encode))
            && (r.Failure? ==> store.files == old(store.files))
            && (r.Failure? <==> !ioSucceeds && (doc.IsEmpty() ==> target in old(store.files)))
  {
    var url := TargetURL(rootURL, filename(doc.date));
    if doc.IsEmpty() {
      if store.FileExists(url) {
        r := store.RemoveItem(url, ioSucceeds);
      } else {
        r := Success(());
      }
    } else {
      var content := Header(doc, zone, encode) + doc.content;
      r := store.Write(url, content, ioSucceeds);
    }
  }
}
