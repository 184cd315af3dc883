/** The document handlers (server/src/controllers/docs.controller.js): access
    rules, the version number the handlers compute, the field, tag and
    collaborator edits, and the handlers themselves over the store, the
    activity log and the embedding service. The requesting user is the
    `req.user` the auth middleware sets. */
module DocsController {
  import opened Common
  import opened Documents
  import opened Database
  import opened Gemini
  import Activity
  import Embeddings
  import Validate

  // ---------------------------------------------------------------------------
  // Access rules

  predicate IsOwner(d: Document, u: AuthUser) {
    d.owner == u.id
  }

  predicate IsAdmin(u: AuthUser) {
    u.role == "admin"
  }

  predicate IsCollaborator(d: Document, u: AuthUser) {
    u.id in d.collaborators
  }

  /** The rule getDocument's test states: public, owner or collaborator;
      there is no admin bypass. */
  predicate CanView(d: Document, u: AuthUser) {
    d.isPublic || IsOwner(d, u) || IsCollaborator(d, u)
  }

  /** update, delete, share and the tag edits: owner or admin. */
  predicate CanModify(d: Document, u: AuthUser) {
    IsOwner(d, u) || IsAdmin(u)
  }

  /** The rule createVersion's and getVersions' tests state: owner, admin
      or collaborator. */
  predicate CanVersion(d: Document, u: AuthUser) {
    IsOwner(d, u) || IsAdmin(u) || IsCollaborator(d, u)
  }

  /** How the three rules nest: whoever may modify may version; the owner may
      do everything; a collaborator who is not an admin may view and version
      but never modify. */
  lemma AccessNesting(d: Document, u: AuthUser)
    ensures CanModify(d, u) ==> CanVersion(d, u)
    ensures IsOwner(d, u) ==> CanView(d, u) && CanModify(d, u) && CanVersion(d, u)
    ensures IsCollaborator(d, u) && !IsOwner(d, u) && !IsAdmin(u) ==>
              CanView(d, u) && CanVersion(d, u) && !CanModify(d, u)
  {
  }

  /** Evaluating one of the handlers' access tests: it admits, it refuses
      with 403, or it throws and the handler's catch answers 500. */
  datatype Gate = Admit | Deny | Throws

  /** getDocument's test as the code evaluates it. The document schema has no
      `collaborators` path, so `document.collaborators` is undefined and the
      `.some` call on it throws a TypeError; `&&` reaches that call exactly
      when the document is private and the caller is not its owner. */
  function ViewGateAsWritten(d: Document, u: AuthUser): Gate {
    if d.isPublic || IsOwner(d, u) then Admit else Throws
  }

  /** createVersion's and getVersions' test as the code evaluates it: the
      `.some` call is reached, and throws, when the caller is neither the
      owner nor an admin. */
  function VersionGateAsWritten(d: Document, u: AuthUser): Gate {
    if IsOwner(d, u) || IsAdmin(u) then Admit else Throws
  }

  /** The tests with a collaborator list to search: they never throw. */
  function ViewGate(d: Document, u: AuthUser): Gate {
    if CanView(d, u) then Admit else Deny
  }

  function VersionGate(d: Document, u: AuthUser): Gate {
    if CanVersion(d, u) then Admit else Deny
  }

  /** As written, no access test ever refuses with 403: whoever the
      collaborator-aware rules refuse gets 500 instead, and so does every
      collaborator who is not the owner (or, for versions, an admin). */
  lemma GatesAsWrittenNeverDeny(d: Document, u: AuthUser)
    ensures ViewGateAsWritten(d, u) != Deny && VersionGateAsWritten(d, u) != Deny
    ensures ViewGateAsWritten(d, u) == Admit ==> ViewGate(d, u) == Admit
    ensures VersionGateAsWritten(d, u) == Admit ==> VersionGate(d, u) == Admit
    ensures ViewGate(d, u) == Deny ==> ViewGateAsWritten(d, u) == Throws
    ensures VersionGate(d, u) == Deny ==> VersionGateAsWritten(d, u) == Throws
    ensures ViewGateAsWritten(d, u) == Throws <==> ViewGate(d.(collaborators := []), u) == Deny
    ensures VersionGateAsWritten(d, u) == Throws <==> VersionGate(d.(collaborators := []), u) == Deny
  {
  }

  /** The input that shows it: a private document of "alice" listing "bob" as
      a collaborator. The collaborator-aware rules let bob read and version
      it; the code as written answers him 500, and answers the outsider
      "carol" 500 where the rules refuse with 403. */
  lemma CollaboratorGetsServerError()
    ensures var d := Document("doc", "t", "c", "alice", false, [], ["bob"], 1, [], map[]);
      var bob := AuthUser("bob", "user");
      var carol := AuthUser("carol", "user");
      && ViewGate(d, bob) == Admit && ViewGateAsWritten(d, bob) == Throws
      && VersionGate(d, bob) == Admit && VersionGateAsWritten(d, bob) == Throws
      && ViewGate(d, carol) == Deny && ViewGateAsWritten(d, carol) == Throws
  {
  }

  /** An admin may update, delete and re-version a private document of
      someone else that they may not read. */
  lemma AdminCannotViewPrivate(d: Document, u: AuthUser)
    requires IsAdmin(u) && !d.isPublic && !IsOwner(d, u) && !IsCollaborator(d, u)
    ensures CanModify(d, u) && CanVersion(d, u) && !CanView(d, u)
  {
  }

  // ---------------------------------------------------------------------------
  // The version number the handlers compute (lines 244-250 and 436-442)

  /** `Version.findOne({ document: d }, ..., { sort: { versionNumber: -1 } })`:
      a version of `d` with the highest number. */
  function LatestVersion(vs: seq<Version>, d: DocId): (r: Option<Version>)
    ensures r.None? ==> forall i :: 0 <= i < |vs| ==> vs[i].document != d
    ensures r.Some? ==> r.value.document == d && exists i :: 0 <= i < |vs| && vs[i] == r.value
    ensures r.Some? ==> forall i :: 0 <= i < |vs| && vs[i].document == d ==>
                          vs[i].versionNumber <= r.value.versionNumber
  {
    if vs == [] then None
    else
      var init := vs[..|vs| - 1];
      var rest := LatestVersion(init, d);
      var v := vs[|vs| - 1];
      assert forall i :: 0 <= i < |init| ==> vs[i] == init[i];
      if v.document != d then rest
      else if rest.None? || rest.value.versionNumber < v.versionNumber then Some(v)
      else rest
  }

  /** `latestVersion ? latestVersion.versionNumber + 1 : 1`. */
  function HandlerVersionNumber(latest: Option<Version>): int {
    match latest
    case None => 1
    case Some(v) => v.versionNumber + 1
  }

  /** Run one request at a time, the number the handler computes is the one
      the pre-save hook assigns, and it is the document's current version
      plus one (1 before its first version). */
  lemma {:induction false} HandlerAgreesWithHook(vs: seq<Version>, v: Version)
    ensures HandlerVersionNumber(LatestVersion(vs, v.document)) == PreSaveVersionNumber(vs, v, true)
  {
    var d := v.document;
    match LatestVersion(vs, d)
    case None =>
      forall n ensures n !in NumbersOf(vs, d) {
        NumbersOfMember(vs, d, n);
      }
    case Some(lv) =>
      var i :| 0 <= i < |vs| && vs[i] == lv;
      NumbersOfMember(vs, d, lv.versionNumber);
      var m := LatestNumber(vs, d).value;
      NumbersOfMember(vs, d, m);
  }

  lemma HandlerNumberIsCurrentPlusOne(vs: seq<Version>, d: Document)
    requires CurrentVersionConsistent(vs, d)
    ensures HandlerVersionNumber(LatestVersion(vs, d.id)) ==
            if NumbersOf(vs, d.id) == {} then 1 else d.currentVersion + 1
  {
    HandlerAgreesWithHook(vs, Version(d.id, 0, "", "", ""));
    CurrentIsLatest(vs, d);
  }

  // ---------------------------------------------------------------------------
  // Field updates (updateDocument, lines 232-239)

  /** `const contentChanged = content && content !== document.content`. */
  predicate ContentChanged(stored: string, content: Option<string>) {
    content.Some? && content.value != "" && content.value != stored
  }

  /** Each field present in the body replaces the stored one; title and tags
      go through the schema's trim setter; nothing else changes. */
  function ApplyUpdate(d: Document, title: Option<string>, content: Option<string>,
                       isPublic: Option<bool>, tags: Option<seq<string>>,
                       metadata: Option<map<string, string>>): (r: Document)
    ensures r.id == d.id && r.owner == d.owner && r.collaborators == d.collaborators
    ensures r.currentVersion == d.currentVersion && r.embeddings == d.embeddings
    ensures r.title == (if title.Some? then Trim(title.value) else d.title)
    ensures r.content == (if content.Some? then content.value else d.content)
    ensures r.isPublic == (if isPublic.Some? then isPublic.value else d.isPublic)
    ensures r.tags == (if tags.Some? then TrimAll(tags.value) else d.tags)
    ensures r.metadata == (if metadata.Some? then metadata.value else d.metadata)
  {
    var newTitle := if title.Some? then Trim(title.value) else d.title;
    var newContent := if content.Some? then content.value else d.content;
    var newIsPublic := if isPublic.Some? then isPublic.value else d.isPublic;
    var newTags := if tags.Some? then TrimAll(tags.value) else d.tags;
    var newMetadata := if metadata.Some? then metadata.value else d.metadata;
    Document(d.id, newTitle, newContent, d.owner, newIsPublic, newTags, d.collaborators,
             d.currentVersion, d.embeddings, newMetadata)
  }

  lemma TrimAllIdempotent(tags: seq<string>)
    ensures TrimAll(TrimAll(tags)) == TrimAll(tags)
  {
    var t := TrimAll(tags);
    forall i | 0 <= i < |t| ensures Trim(t[i]) == t[i] {
      TrimIdempotent(tags[i]);
    }
  }

  /** An empty body changes nothing. */
  lemma EmptyUpdateIsIdentity(d: Document)
    ensures ApplyUpdate(d, None, None, None, None, None) == d
  {
  }

  /** Sending the same body twice changes no more than sending it once. */
  lemma ApplyUpdateIdempotent(d: Document, title: Option<string>, content: Option<string>,
                              isPublic: Option<bool>, tags: Option<seq<string>>,
                              metadata: Option<map<string, string>>)
    ensures var once := ApplyUpdate(d, title, content, isPublic, tags, metadata);
            ApplyUpdate(once, title, content, isPublic, tags, metadata) == once
  {
    var once := ApplyUpdate(d, title, content, isPublic, tags, metadata);
    var twice := ApplyUpdate(once, title, content, isPublic, tags, metadata);
    assert twice.title == once.title by {
      if title.Some? {
        TrimIdempotent(title.value);
      }
    }
    assert twice.tags == once.tags by {
      if tags.Some? {
        TrimAllIdempotent(tags.value);
      }
    }
  }

  // ---------------------------------------------------------------------------
  // Tags and collaborators

  ghost predicate NoDuplicates<T>(s: seq<T>) {
    forall i, j :: 0 <= i < j < |s| ==> s[i] != s[j]
  }

  /** `array.indexOf(x)`: the first position holding x. */
  function FirstIndex<T(==)>(s: seq<T>, x: T): (r: Option<nat>)
    ensures r.Some? ==> r.value < |s| && s[r.value] == x && x !in s[..r.value]
    ensures r.None? <==> x !in s
  {
    if s == [] then None
    else if s[0] == x then Some(0)
    else
      match FirstIndex(s[1..], x)
      case None => None
      case Some(i) =>
        assert s[..i + 1] == [s[0]] + s[1..][..i];
        Some(i + 1)
  }

  /** `array.splice(i, 1)`. */
  function RemoveAt<T>(s: seq<T>, i: nat): seq<T>
    requires i < |s|
  {
    s[..i] + s[i + 1..]
  }

  /** Removing a tag drops exactly its first occurrence: one copy fewer, the
      tags before it unchanged, the tags after it shifted down by one. */
  lemma RemoveFirstOccurrence<T>(s: seq<T>, x: T)
    requires x in s
    ensures FirstIndex(s, x).Some?
    ensures var i := FirstIndex(s, x).value;
      var r := RemoveAt(s, i);
      && |r| == |s| - 1
      && multiset(r) + multiset{x} == multiset(s)
      && r[..i] == s[..i] && x !in r[..i]
      && r[i..] == s[i + 1..]
  {
    var i := FirstIndex(s, x).value;
    assert s == s[..i] + [x] + s[i + 1..];
    var r := RemoveAt(s, i);
    assert r[..i] == s[..i];
  }

  /** `addTag` as written: the duplicate check compares the raw tag, while
      the schema trims what is pushed. */
  function WithTagAsWritten(tags: seq<string>, tag: string): Result<seq<string>> {
    if tag in tags then Err("Tag already exists") else Ok(tags + [Trim(tag)])
  }

  /** The raw-tag check lets a padded copy of a stored tag through. */
  lemma WithTagAsWrittenDuplicates()
    ensures WithTagAsWritten(["ai"], " ai") == Ok(["ai", "ai"])
  {
    assert Trim(" ai") == "ai" by {
      assert !IsWhitespace('a') && !IsWhitespace('i') && IsWhitespace(' ');
      assert " ai"[0] == ' ' && " ai"[1] == 'a' && " ai"[2] == 'i';
      assert SkipForward(" ai", 1) == 1;
      assert SkipForward(" ai", 0) == 1;
      assert SkipBackward(" ai", 1, 3) == 3;
      assert " ai"[1..3] == "ai";
    }
    assert " ai" !in ["ai"] by {
      assert |" ai"| != |"ai"|;
    }
    assert ["ai"] + ["ai"] == ["ai", "ai"];
  }

  /** `addTag` with the check made on the tag as it will be stored: the tag
      list stays free of duplicates, the new tag goes last and the others
      keep their places. */
  function WithTag(tags: seq<string>, tag: string): (r: Result<seq<string>>)
    ensures r.Err? <==> Trim(tag) in tags
    ensures r.Err? ==> r.message == "Tag already exists"
    ensures r.Ok? ==> r.value == tags + [Trim(tag)]
    ensures r.Ok? && NoDuplicates(tags) ==> NoDuplicates(r.value)
  {
    if Trim(tag) in tags then Err("Tag already exists") else Ok(tags + [Trim(tag)])
  }

  /** A listed version: `.select('versionNumber changes createdAt createdBy')`
      keeps only these fields (the timestamp is not modelled, and the author
      is the id that `populate` resolves). */
  datatype VersionSummary = VersionSummary(versionNumber: int, changes: string, createdBy: UserId)

  function Summary(v: Version): VersionSummary {
    VersionSummary(v.versionNumber, v.changes, v.createdBy)
  }

  /** The selected fields of each version, in order. */
  function Summaries(vs: seq<Version>): (r: seq<VersionSummary>)
    ensures |r| == |vs| && forall i :: 0 <= i < |r| ==> r[i] == Summary(vs[i])
  {
    seq(|vs|, i requires 0 <= i < |vs| => Summary(vs[i]))
  }

  datatype Payload =
    | Errors(errors: seq<Validate.FieldError>)
    | DocBody(doc: Document)
    | Removed
    | Shared(id: DocId, title: string, sharedWith: UserId, permission: string)
    | VersionCreated(versionNumber: int)
    | VersionList(documentId: DocId, title: string, currentVersion: int, versions: seq<VersionSummary>)
    | TagsBody(id: DocId, title: string, tags: seq<string>)
    | EmbeddingsBody(id: DocId, title: string, hasEmbeddings: bool)

  /** `shareDocument` as written: `User` is never imported in the controller,
      so past the self-share check `User.findById` throws a ReferenceError,
      which the handler answers with 500. */
  function ShareAsWritten(d: Document, u: AuthUser, target: UserId): (r: Response<Payload>)
  {
    if !CanModify(d, u) then Refuse(403, "Not authorized to share this document")
    else if target == u.id then Refuse(400, "Cannot share with yourself")
    else Refuse(500, "Server error")
  }

  /** As written, no request ever shares a document. */
  lemma ShareAsWrittenNeverShares(d: Document, u: AuthUser, target: UserId)
    ensures ShareAsWritten(d, u, target).Refuse?
    ensures CanModify(d, u) && target != u.id ==> ShareAsWritten(d, u, target).Status() == 500
  {
  }

  /** `shareDocument` with the user lookup it evidently means: the target must
      be a registered user, not the caller, and not already a collaborator;
      then it is appended to the collaborators. */
  function Share(d: Document, u: AuthUser, target: UserId, permission: string,
                 knownUsers: set<UserId>): (r: Response<Document>)
    ensures r.Reply? <==> CanModify(d, u) && target != u.id && target in knownUsers
                          && target !in d.collaborators
    ensures r.Reply? ==> r.status == 200 && r.body == d.(collaborators := d.collaborators + [target])
    ensures r.Reply? && NoDuplicates(d.collaborators) ==> NoDuplicates(r.body.collaborators)
    ensures !CanModify(d, u) ==> r == Refuse(403, "Not authorized to share this document")
    ensures CanModify(d, u) && target == u.id ==> r == Refuse(400, "Cannot share with yourself")
  {
    if !CanModify(d, u) then Refuse(403, "Not authorized to share this document")
    else if target == u.id then Refuse(400, "Cannot share with yourself")
    else if target !in knownUsers then Refuse(404, "User not found")
    else if target in d.collaborators then Refuse(400, "Document already shared with this user")
    else Reply(200, d.(collaborators := d.collaborators + [target]))
  }

  /** With a `collaborators` path, sharing does what it is for: the user it
      was shared with gets past the view and version tests, whatever their
      role, and nobody else's access changes. */
  lemma SharedUserGetsIn(d: Document, u: AuthUser, target: UserId, permission: string,
                         knownUsers: set<UserId>, other: AuthUser)
    requires Share(d, u, target, permission, knownUsers).Reply?
    ensures var shared := Share(d, u, target, permission, knownUsers).body;
      && (forall role :: ViewGate(shared, AuthUser(target, role)) == Admit)
      && (forall role :: VersionGate(shared, AuthUser(target, role)) == Admit)
      && (other.id != target ==>
            ViewGate(shared, other) == ViewGate(d, other)
            && VersionGate(shared, other) == VersionGate(d, other))
  {
  }

  // ---------------------------------------------------------------------------
  // Versions listing

  /** `.sort({ versionNumber: -1 })`. */
  function SortByNumberDesc(vs: seq<Version>): (r: seq<Version>)
    ensures multiset(r) == multiset(vs)
    ensures ByNumberDesc(r)
  {
    if vs == [] then []
    else
      assert vs == [vs[0]] + vs[1..];
      InsertByNumber(vs[0], SortByNumberDesc(vs[1..]))
  }

  function InsertByNumber(v: Version, sorted: seq<Version>): (r: seq<Version>)
    requires ByNumberDesc(sorted)
    ensures multiset(r) == multiset(sorted) + multiset{v}
    ensures ByNumberDesc(r)
  {
    if sorted == [] || v.versionNumber >= sorted[0].versionNumber then
      ConsByNumber(v, sorted);
      [v] + sorted
    else
      var rest := InsertByNumber(v, sorted[1..]);
      assert sorted == [sorted[0]] + sorted[1..];
      HeadBoundsInsert(sorted[0], v, sorted[1..], rest);
      ConsByNumber(sorted[0], rest);
      [sorted[0]] + rest
  }

  predicate ByNumberDesc(s: seq<Version>) {
    forall i, j :: 0 <= i < j < |s| ==> s[i].versionNumber >= s[j].versionNumber
  }

  lemma ConsByNumber(h: Version, s: seq<Version>)
    requires ByNumberDesc(s)
    requires forall k :: 0 <= k < |s| ==> h.versionNumber >= s[k].versionNumber
    ensures ByNumberDesc([h] + s)
  {
    var t := [h] + s;
    forall i, j | 0 <= i < j < |t| ensures t[i].versionNumber >= t[j].versionNumber {
      assert t[j] == s[j - 1];
      if i > 0 {
        assert t[i] == s[i - 1];
      }
    }
  }

  /** What is inserted below the head stays below it. */
  lemma HeadBoundsInsert(h: Version, v: Version, tail: seq<Version>, rest: seq<Version>)
    requires multiset(rest) == multiset(tail) + multiset{v}
    requires forall j :: 0 <= j < |tail| ==> h.versionNumber >= tail[j].versionNumber
    requires h.versionNumber > v.versionNumber
    ensures forall k :: 0 <= k < |rest| ==> h.versionNumber >= rest[k].versionNumber
  {
    forall k | 0 <= k < |rest| ensures h.versionNumber >= rest[k].versionNumber {
      assert rest[k] in multiset(rest);
      if rest[k] != v {
        assert rest[k] in multiset(tail);
        var j :| 0 <= j < |tail| && tail[j] == rest[k];
      }
    }
  }

  // ---------------------------------------------------------------------------
  // Handlers

  /** `docs` holds the documents of `expected`, each possibly with other
      embeddings. */
  ghost predicate UpToEmbeddings(docs: map<DocId, Document>, expected: map<DocId, Document>) {
    && docs.Keys == expected.Keys
    && forall k :: k in docs ==> docs[k].(embeddings := expected[k].embeddings) == expected[k]
  }

  /** `updateDocumentEmbeddings` as the handlers call it: its outcome is
      ignored, and at most the document's embeddings change. */
  method RefreshEmbeddings(db: Database, id: DocId, emb: Embeddings.EmbeddingService,
                           gemini: GeminiService)
    requires db.Valid()
    modifies db, emb`cache, gemini`embedCalls
    ensures db.Valid()
    ensures db.order == old(db.order) && db.versions == old(db.versions)
    ensures UpToEmbeddings(db.docs, old(db.docs))
  {
    var _ := emb.UpdateDocumentEmbeddings(db, id, gemini);
  }

  /** The two saves of `createDocument`: the document, then its version 1
      'Initial version'. The hook moves `currentVersion` to 1, where it
      already is. */
  method StoreNewDocument(db: Database, d: Document, author: UserId) returns (ok: bool)
    requires db.Valid() && d.id !in db.docs && d.id != "" && d.currentVersion == 1 && d.owner == author
    modifies db
    ensures db.Valid()
    ensures ok == DocumentSavable(d)
    ensures !ok ==> db.docs == old(db.docs) && db.order == old(db.order) && db.versions == old(db.versions)
    ensures ok ==>
      && db.docs == old(db.docs)[d.id := d]
      && db.order == old(db.order) + [d.id]
      && db.versions == old(db.versions) + [Version(d.id, 1, d.content, "Initial version", author)]
  {
    db.NoVersionsOfFreshId(d.id);
    ok := db.InsertDocument(d);
    if !ok {
      return;
    }
    var version := Version(d.id, 1, d.content, "Initial version", author);
    var versionSaved, n := db.SaveNewVersion(version);
    assert versionSaved && n == 1;
  }

  /** `createDocument`: the route's validation errors (`errors`, computed
      by the validators outside this model) answer 400; otherwise the two
      saves, then a log call and a request for embeddings whose failure is
      swallowed. The reply is the document as created, before any
      embedding. */
  method CreateDocument(user: AuthUser, errors: seq<Validate.FieldError>,
                        newId: DocId, title: string, content: string,
                        isPublic: Option<bool>, tags: Option<seq<string>>,
                        metadata: Option<map<string, string>>,
                        db: Database, log: Activity.ActivityLog,
                        emb: Embeddings.EmbeddingService, gemini: GeminiService)
    returns (r: Response<Payload>)
    requires db.Valid() && newId !in db.docs && newId != ""
    modifies db, log, emb`cache, gemini`embedCalls
    ensures db.Valid() && log.records == old(log.records)
    ensures errors != [] ==>
      r == Reply(400, Errors(errors))
      && db.docs == old(db.docs) && db.order == old(db.order) && db.versions == old(db.versions)
    ensures errors == [] ==>
      var d := CreatedDocument(newId, title, content, user.id, isPublic, tags, metadata);
      && (!DocumentSavable(d) ==>
            r == Refuse(500, "Server error")
            && db.docs == old(db.docs) && db.order == old(db.order) && db.versions == old(db.versions))
      && (DocumentSavable(d) ==>
            && r == Reply(201, DocBody(d))
            && db.versions == old(db.versions) + [Version(newId, 1, content, "Initial version", user.id)]
            && db.order == old(db.order) + [newId]
            && UpToEmbeddings(db.docs, old(db.docs)[newId := d]))
  {
    if errors != [] {
      return Reply(400, Errors(errors));
    }
    var document := CreatedDocument(newId, title, content, user.id, isPublic, tags, metadata);
    var saved := StoreNewDocument(db, document, user.id);
    if !saved {
      return Refuse(500, "Server error");
    }
    Activity.LogControllerAction(log, user.id, Some(newId), Activity.CreateDocument,
                                 Some(map["title" := Activity.Value(title),
                                          "isPublic" := Activity.Value(BoolText(document.isPublic))]));
    RefreshEmbeddings(db, newId, emb, gemini);
    r := Reply(201, DocBody(document));
  }

  /** `getDocument` as written: public or owned documents only; for anyone
      else the access test throws (see `ViewGateAsWritten`) and the catch
      answers 500, so the 403 branch is never taken. */
  method GetDocument(user: AuthUser, id: DocId, db: Database, log: Activity.ActivityLog)
    returns (r: Response<Payload>)
    requires db.Valid()
    modifies log
    ensures log.records == old(log.records)
    ensures r.Reply? <==> id in db.docs && (db.docs[id].isPublic || IsOwner(db.docs[id], user))
    ensures id !in db.docs ==> r == Refuse(404, "Document not found")
    ensures id in db.docs && ViewGateAsWritten(db.docs[id], user) == Throws ==>
              r == Refuse(500, "Server error")
    ensures id in db.docs && ViewGateAsWritten(db.docs[id], user) == Admit ==>
              r == Reply(200, DocBody(db.docs[id]))
  {
    if id !in db.docs {
      return Refuse(404, "Document not found");
    }
    var document := db.docs[id];
    var gate := ViewGateAsWritten(document, user);
    if gate == Throws {
      return Refuse(500, "Server error");
    } else if gate == Deny {
      return Refuse(403, "Not authorized to access this document");
    }
    Activity.LogControllerAction(log, user.id, Some(id), Activity.ViewDocument, None);
    r := Reply(200, DocBody(document));
  }

  /** The version save that `updateDocument` and `createVersion` make: the
      number the handler computes, which is the one the hook assigns. */
  method SaveContentVersion(db: Database, id: DocId, content: string, changes: string,
                            author: UserId) returns (ok: bool, n: int)
    requires db.Valid() && id in db.docs
    modifies db
    ensures db.Valid() && db.order == old(db.order)
    ensures n == HandlerVersionNumber(LatestVersion(old(db.versions), id))
    ensures n == NextVersionNumber(old(db.versions), id)
    ensures n == if NumbersOf(old(db.versions), id) == {} then 1 else old(db.docs)[id].currentVersion + 1
    ensures ok == VersionSavable(Version(id, n, content, changes, author))
    ensures ok ==>
      && db.versions == InsertVersion(old(db.versions), Version(id, n, content, changes, author))
      && db.docs == old(db.docs)[id := old(db.docs)[id].(currentVersion := n)]
    ensures !ok ==> db.docs == old(db.docs) && db.versions == old(db.versions)
  {
    var latest := LatestVersion(db.versions, id);
    n := HandlerVersionNumber(latest);
    var version := Version(id, n, content, changes, author);
    HandlerAgreesWithHook(db.versions, version);
    HandlerNumberIsCurrentPlusOne(db.versions, db.docs[id]);
    var hookNumber;
    ok, hookNumber := db.SaveNewVersion(version);
  }

  /** `document.save()` of a stored document after an in-memory edit that
      leaves its id and current version alone. */
  method SaveEdited(db: Database, d: Document) returns (ok: bool)
    requires db.Valid() && d.id in db.docs && d.currentVersion == db.docs[d.id].currentVersion
    modifies db
    ensures db.Valid()
    ensures ok == DocumentSavable(d)
    ensures ok ==> db.docs == old(db.docs)[d.id := d]
    ensures !ok ==> db.docs == old(db.docs)
    ensures db.order == old(db.order) && db.versions == old(db.versions)
  {
    assert CurrentVersionConsistent(db.versions, db.docs[d.id]);
    ok := db.SaveDocument(d);
  }

  /** The stored document `updateDocument` ends with: the edited fields and,
      when the content changed, the new current version. */
  function Updated(d: Document, title: Option<string>, content: Option<string>,
                   isPublic: Option<bool>, tags: Option<seq<string>>,
                   metadata: Option<map<string, string>>, n: int): (r: Document)
    ensures ContentChanged(d.content, content) ==> r.currentVersion == n && r.content == content.value
    ensures !ContentChanged(d.content, content) ==> r.currentVersion == d.currentVersion
    ensures r.(currentVersion := d.currentVersion) == ApplyUpdate(d, title, content, isPublic, tags, metadata)
  {
    var edited := ApplyUpdate(d, title, content, isPublic, tags, metadata);
    if ContentChanged(d.content, content) then edited.(currentVersion := n) else edited
  }

  /** The two saves of `updateDocument`: the new version when the content
      changed, then the edited document. */
  method CommitUpdate(db: Database, d: Document, updated: Document, changed: bool,
                      author: UserId) returns (ok: bool)
    requires db.Valid() && d.id in db.docs && db.docs[d.id] == d && updated.id == d.id
    requires changed ==> updated.currentVersion == NextVersionNumber(db.versions, d.id)
    requires !changed ==> updated.currentVersion == d.currentVersion
    modifies db
    ensures db.Valid() && db.order == old(db.order)
    ensures var version := Version(d.id, updated.currentVersion, updated.content,
                                   "Document content updated", author);
      && ok == ((!changed || VersionSavable(version)) && DocumentSavable(updated))
      && (changed && !VersionSavable(version) ==>
            db.docs == old(db.docs) && db.versions == old(db.versions))
      && (!changed || VersionSavable(version) ==>
            && db.versions == (if changed then InsertVersion(old(db.versions), version)
                               else old(db.versions))
            && db.docs == old(db.docs)[d.id := if DocumentSavable(updated) then updated
                                                else d.(currentVersion := updated.currentVersion)])
  {
    if !changed {
      ok := SaveEdited(db, updated);
      return;
    }
    var version := Version(d.id, updated.currentVersion, updated.content,
                           "Document content updated", author);
    var versionSaved, n := SaveContentVersion(db, d.id, updated.content,
                                              "Document content updated", author);
    if !versionSaved {
      return false;
    }
    ghost var versions := db.versions;
    assert versions == InsertVersion(old(db.versions), version);
    ok := SaveEdited(db, updated);
  }

  /** The document `createDocument` builds from its body: `isPublic`, `tags`
      and `metadata` default to false, [] and {} when absent, and a value
      given is used as it is (tags trimmed by the schema). */
  function CreatedDocument(newId: DocId, title: string, content: string, owner: UserId,
                           isPublic: Option<bool>, tags: Option<seq<string>>,
                           metadata: Option<map<string, string>>): (d: Document)
    ensures isPublic.None? ==> !d.isPublic
    ensures tags.None? ==> d.tags == []
    ensures metadata.None? ==> d.metadata == map[]
    ensures isPublic.Some? ==> d.isPublic == isPublic.value
    ensures tags.Some? ==> d.tags == TrimAll(tags.value)
    ensures metadata.Some? ==> d.metadata == metadata.value
    ensures d.id == newId && d.title == Trim(title) && d.content == content && d.owner == owner
    ensures d.currentVersion == 1 && d.embeddings == [] && d.collaborators == []
  {
    NewDocument(newId, title, content, owner, OrDefault(isPublic, false),
                OrDefault(tags, []), OrDefault(metadata, map[]))
  }

  /** A boolean detail as its JSON text. */
  function BoolText(b: bool): string {
    if b then "true" else "false"
  }

  /** `Object.keys(req.body)` of an update body, in field order. */
  function UpdatedFields(title: Option<string>, content: Option<string>, isPublic: Option<bool>,
                         tags: Option<seq<string>>, metadata: Option<map<string, string>>): seq<string>
  {
    (if title.Some? then ["title"] else [])
    + (if content.Some? then ["content"] else [])
    + (if isPublic.Some? then ["isPublic"] else [])
    + (if tags.Some? then ["tags"] else [])
    + (if metadata.Some? then ["metadata"] else [])
  }

  /** A whole number detail as its JSON text. */
  function NumberText(n: int): string {
    if n < 0 then "-" + Embeddings.Decimal(-n) else Embeddings.Decimal(n)
  }

  /** The details `createVersion` logs. */
  function VersionDetails(n: int, changes: string): Activity.Details {
    map["version" := Activity.Value(NumberText(n)), "changes" := Activity.Value(changes)]
  }

  /** `createVersion`'s log call, which the action enum refuses. */
  method LogVersionCreated(log: Activity.ActivityLog, user: UserId, id: DocId, n: int, changes: string)
    modifies log
    ensures log.records == old(log.records)
  {
    Activity.LogControllerAction(log, user, Some(id), Activity.CreateVersion,
                                 Some(VersionDetails(n, changes)));
  }

  /** The details `updateDocument` logs. */
  function UpdateDetails(fields: seq<string>, changed: bool): Activity.Details {
    map["updatedFields" := Activity.Value(Join(fields, ",")),
        "contentChanged" := Activity.Value(BoolText(changed))]
  }

  /** `updateDocument`. A changed content is first saved as a new version;
      the document save comes after it, so a document the schema then
      refuses leaves the new version and the hook's current version behind
      (500). Embeddings are refreshed only when the content changed. The
      route's validation errors answer 400 before anything else. */
  method UpdateDocument(user: AuthUser, errors: seq<Validate.FieldError>, id: DocId, title: Option<string>, content: Option<string>,
                        isPublic: Option<bool>, tags: Option<seq<string>>,
                        metadata: Option<map<string, string>>,
                        db: Database, log: Activity.ActivityLog,
                        emb: Embeddings.EmbeddingService, gemini: GeminiService)
    returns (r: Response<Payload>)
    requires db.Valid()
    modifies db, log, emb`cache, gemini`embedCalls
    ensures db.Valid() && log.records == old(log.records) && db.order == old(db.order)
    ensures errors != [] ==>
      r == Reply(400, Errors(errors))
      && db.docs == old(db.docs) && db.versions == old(db.versions)
    ensures errors == [] && id !in old(db.docs) ==>
      r == Refuse(404, "Document not found")
      && db.docs == old(db.docs) && db.versions == old(db.versions)
    ensures errors == [] && id in old(db.docs) && !CanModify(old(db.docs)[id], user) ==>
      r == Refuse(403, "Not authorized to update this document")
      && db.docs == old(db.docs) && db.versions == old(db.versions)
    ensures errors == [] && id in old(db.docs) && CanModify(old(db.docs)[id], user) ==>
      var d := old(db.docs)[id];
      var changed := ContentChanged(d.content, content);
      var n := NextVersionNumber(old(db.versions), id);
      var updated := Updated(d, title, content, isPublic, tags, metadata, n);
      var version := Version(id, n, updated.content, "Document content updated", user.id);
      && (changed && !VersionSavable(version) ==>
            r == Refuse(500, "Server error")
            && db.docs == old(db.docs) && db.versions == old(db.versions))
      && (!changed || VersionSavable(version) ==>
            && db.versions == (if changed then InsertVersion(old(db.versions), version)
                               else old(db.versions))
            && (DocumentSavable(updated) ==>
                  r == Reply(200, DocBody(updated))
                  && UpToEmbeddings(db.docs, old(db.docs)[id := updated]))
            && (!DocumentSavable(updated) ==>
                  r == Refuse(500, "Server error")
                  && db.docs == old(db.docs)[id := d.(currentVersion := updated.currentVersion)]))
  {
    if errors != [] {
      return Reply(400, Errors(errors));
    }
    if id !in db.docs {
      return Refuse(404, "Document not found");
    }
    var document := db.docs[id];
    if !CanModify(document, user) {
      return Refuse(403, "Not authorized to update this document");
    }
    var changed := ContentChanged(document.content, content);
    CurrentIsLatest(db.versions, document);
    var n := NextVersionNumber(db.versions, id);
    var updated := Updated(document, title, content, isPublic, tags, metadata, n);
    var saved := CommitUpdate(db, document, updated, changed, user.id);
    if !saved {
      return Refuse(500, "Server error");
    }
    var details := UpdateDetails(UpdatedFields(title, content, isPublic, tags, metadata), changed);
    Activity.LogControllerAction(log, user.id, Some(id), Activity.UpdateDocument, Some(details));
    if changed {
      RefreshEmbeddings(db, id, emb, gemini);
    }
    r := Reply(200, DocBody(updated));
  }

  /** `changes || 'No change description provided'`. */
  function ChangesOrDefault(changes: string): (r: string)
    ensures r != ""
    ensures changes != "" ==> r == changes
  {
    if changes == "" then "No change description provided" else changes
  }

  /** The two saves of `createVersion`: the version, then the document with
      the new content and current version. */
  method CommitVersion(db: Database, d: Document, content: string, changes: string,
                       author: UserId) returns (ok: bool, n: int)
    requires db.Valid() && d.id in db.docs && db.docs[d.id] == d
    modifies db
    ensures db.Valid() && db.order == old(db.order)
    ensures n == NextVersionNumber(old(db.versions), d.id)
    ensures n == if NumbersOf(old(db.versions), d.id) == {} then 1 else d.currentVersion + 1
    ensures var version := Version(d.id, n, content, changes, author);
      && ok == VersionSavable(version)
      && (ok ==> db.versions == InsertVersion(old(db.versions), version)
                 && db.docs == old(db.docs)[d.id := d.(content := content, currentVersion := n)])
      && (!ok ==> db.docs == old(db.docs) && db.versions == old(db.versions))
  {
    ok, n := SaveContentVersion(db, d.id, content, changes, author);
    if !ok {
      return;
    }
    ghost var versions := db.versions;
    var edited := d.(content := content, currentVersion := n);
    var saved := SaveEdited(db, edited);
    assert saved;
  }

  /** `createVersion` as written: owner or admin (for anyone else the access
      test throws, see `VersionGateAsWritten`, and the catch answers 500);
      the content is required; the version gets the next number and becomes
      the document's content. Embeddings are refreshed and their failure
      swallowed. */
  method CreateVersion(user: AuthUser, id: DocId, content: string, changes: string,
                       db: Database, log: Activity.ActivityLog,
                       emb: Embeddings.EmbeddingService, gemini: GeminiService)
    returns (r: Response<Payload>)
    requires db.Valid()
    modifies db, log, emb`cache, gemini`embedCalls
    ensures db.Valid() && log.records == old(log.records) && db.order == old(db.order)
    ensures id !in old(db.docs) ==>
      r == Refuse(404, "Document not found")
      && db.docs == old(db.docs) && db.versions == old(db.versions)
    ensures id in old(db.docs) && VersionGateAsWritten(old(db.docs)[id], user) == Throws ==>
      r == Refuse(500, "Server error")
      && db.docs == old(db.docs) && db.versions == old(db.versions)
    ensures id in old(db.docs) && VersionGateAsWritten(old(db.docs)[id], user) == Admit && content == "" ==>
      r == Refuse(400, "Content is required")
      && db.docs == old(db.docs) && db.versions == old(db.versions)
    ensures id in old(db.docs) && VersionGateAsWritten(old(db.docs)[id], user) == Admit && content != "" ==>
      var d := old(db.docs)[id];
      var n := if NumbersOf(old(db.versions), id) == {} then 1 else d.currentVersion + 1;
      var version := Version(id, n, content, ChangesOrDefault(changes), user.id);
      && (user.id == "" ==>
            r == Refuse(500, "Server error")
            && db.docs == old(db.docs) && db.versions == old(db.versions))
      && (user.id != "" ==>
            && r == Reply(201, VersionCreated(n))
            && db.versions == InsertVersion(old(db.versions), version)
            && UpToEmbeddings(db.docs, old(db.docs)[id := d.(content := content, currentVersion := n)]))
  {
    if id !in db.docs {
      return Refuse(404, "Document not found");
    }
    var document := db.docs[id];
    var gate := VersionGateAsWritten(document, user);
    if gate == Throws {
      return Refuse(500, "Server error");
    } else if gate == Deny {
      return Refuse(403, "Not authorized to create versions of this document");
    }
    if content == "" {
      return Refuse(400, "Content is required");
    }
    var saved, n := CommitVersion(db, document, content, ChangesOrDefault(changes), user.id);
    if !saved {
      return Refuse(500, "Server error");
    }
    LogVersionCreated(log, user.id, id, n, ChangesOrDefault(changes));
    RefreshEmbeddings(db, id, emb, gemini);
    r := Reply(201, VersionCreated(n));
  }

  /** `getVersions` as written: owner or admin (for anyone else the access
      test throws and the catch answers 500); every version of the document,
      highest number first. */
  method GetVersions(user: AuthUser, id: DocId, db: Database) returns (r: Response<Payload>)
    requires db.Valid()
    ensures r.Reply? <==> id in db.docs && (IsOwner(db.docs[id], user) || IsAdmin(user))
    ensures id !in db.docs ==> r == Refuse(404, "Document not found")
    ensures id in db.docs && VersionGateAsWritten(db.docs[id], user) == Throws ==>
              r == Refuse(500, "Server error")
    ensures r.Reply? ==>
      var d := db.docs[id];
      && r.status == 200 && r.body.VersionList?
      && r.body.documentId == id && r.body.title == d.title
      && r.body.currentVersion == d.currentVersion
      && r.body.versions == Summaries(SortByNumberDesc(VersionsOf(db.versions, id)))
      && |r.body.versions| == |VersionsOf(db.versions, id)|
      && (forall i :: 0 <= i < |r.body.versions| ==>
            r.body.versions[i].versionNumber in NumbersOf(db.versions, id))
      && (forall i, j :: 0 <= i < j < |r.body.versions| ==>
            r.body.versions[i].versionNumber > r.body.versions[j].versionNumber)
  {
    if id !in db.docs {
      return Refuse(404, "Document not found");
    }
    var document := db.docs[id];
    var gate := VersionGateAsWritten(document, user);
    if gate == Throws {
      return Refuse(500, "Server error");
    } else if gate == Deny {
      return Refuse(403, "Not authorized to view versions of this document");
    }
    var listed := Summaries(SortByNumberDesc(VersionsOf(db.versions, id)));
    VersionListing(db.versions, id);
    r := Reply(200, VersionList(id, document.title, document.currentVersion, listed));
  }

  /** What `getVersions` lists: one entry per version of the document, each
      carrying one of its numbers, strictly by descending number. */
  lemma VersionListing(vs: seq<Version>, id: DocId)
    requires UniqueVersionNumbers(vs)
    ensures var own := VersionsOf(vs, id);
      var listed := Summaries(SortByNumberDesc(own));
      && |listed| == |own|
      && (forall i :: 0 <= i < |listed| ==> listed[i].versionNumber in NumbersOf(vs, id))
      && (forall i, j :: 0 <= i < j < |listed| ==> listed[i].versionNumber > listed[j].versionNumber)
  {
    var own := VersionsOf(vs, id);
    var sorted := SortByNumberDesc(own);
    assert |sorted| == |own| by {
      assert |multiset(sorted)| == |multiset(own)|;
    }
    VersionListingStrict(vs, id, sorted);
    forall i | 0 <= i < |sorted|
      ensures sorted[i].versionNumber in NumbersOf(vs, id)
    {
      assert sorted[i] in multiset(own);
      assert sorted[i] in vs;
      var k :| 0 <= k < |vs| && vs[k] == sorted[i];
      NumbersOfMember(vs, id, sorted[i].versionNumber);
    }
  }

  /** The listing of a document's versions holds only its versions, and no
      two of them share a number, so the order is strict. */
  lemma VersionListingStrict(vs: seq<Version>, id: DocId, listed: seq<Version>)
    requires UniqueVersionNumbers(vs)
    requires multiset(listed) == multiset(VersionsOf(vs, id))
    requires forall i, j :: 0 <= i < j < |listed| ==> listed[i].versionNumber >= listed[j].versionNumber
    ensures forall i :: 0 <= i < |listed| ==> listed[i].document == id
    ensures forall i, j :: 0 <= i < j < |listed| ==> listed[i].versionNumber > listed[j].versionNumber
  {
    var own := VersionsOf(vs, id);
    VersionsOfDistinct(vs, id);
    forall i | 0 <= i < |listed| ensures listed[i].document == id {
      assert listed[i] in multiset(own);
    }
    forall i, j | 0 <= i < j < |listed| ensures listed[i].versionNumber != listed[j].versionNumber {
      assert listed[i] in multiset(own) && listed[j] in multiset(own);
      if listed[i] == listed[j] {
        AtMostOnce(own, listed[i]);
        CountsRepeat(listed, i, j);
        assert false;
      }
    }
  }

  ghost predicate DistinctNumbers(s: seq<Version>) {
    forall i, j :: 0 <= i < j < |s| ==> s[i].versionNumber != s[j].versionNumber
  }

  /** Under the unique index, the versions of one document carry distinct
      numbers. */
  lemma {:induction false} VersionsOfDistinct(vs: seq<Version>, id: DocId)
    requires UniqueVersionNumbers(vs)
    ensures DistinctNumbers(VersionsOf(vs, id))
  {
    if vs != [] {
      var rest := VersionsOf(vs[1..], id);
      assert UniqueVersionNumbers(vs[1..]) by {
        forall i, j | 0 <= i < j < |vs[1..]| && vs[1..][i].document == vs[1..][j].document
          ensures vs[1..][i].versionNumber != vs[1..][j].versionNumber
        {
          assert vs[1..][i] == vs[i + 1] && vs[1..][j] == vs[j + 1];
        }
      }
      VersionsOfDistinct(vs[1..], id);
      if vs[0].document == id {
        assert VersionsOf(vs, id) == [vs[0]] + rest;
        forall j | 0 <= j < |rest| ensures rest[j].versionNumber != vs[0].versionNumber {
          var k :| 0 <= k < |vs[1..]| && vs[1..][k] == rest[j];
          assert vs[k + 1] == rest[j];
        }
      } else {
        assert VersionsOf(vs, id) == rest;
      }
    }
  }

  lemma CountsRepeat<T>(s: seq<T>, i: nat, j: nat)
    requires i < j < |s| && s[i] == s[j]
    ensures multiset(s)[s[i]] >= 2
  {
    assert s == s[..j] + [s[j]] + s[j + 1..];
    assert s[i] in s[..j];
  }

  /** A sequence with distinct numbers holds each version at most once. */
  lemma {:induction false} AtMostOnce(s: seq<Version>, x: Version)
    requires DistinctNumbers(s)
    ensures multiset(s)[x] <= 1
  {
    if s != [] {
      assert s == [s[0]] + s[1..];
      assert DistinctNumbers(s[1..]) by {
        forall i, j | 0 <= i < j < |s[1..]| ensures s[1..][i].versionNumber != s[1..][j].versionNumber {
          assert s[1..][i] == s[i + 1] && s[1..][j] == s[j + 1];
        }
      }
      AtMostOnce(s[1..], x);
      if s[0] == x {
        assert x !in s[1..];
      }
    }
  }

  /** `deleteDocument`: owner or admin; the document goes with all its
      versions. */
  method DeleteDocument(user: AuthUser, id: DocId, db: Database, log: Activity.ActivityLog)
    returns (r: Response<Payload>)
    requires db.Valid()
    modifies db, log
    ensures db.Valid() && log.records == old(log.records)
    ensures id !in old(db.docs) ==>
      r == Refuse(404, "Document not found") && unchanged(db)
    ensures id in old(db.docs) && !CanModify(old(db.docs)[id], user) ==>
      r == Refuse(403, "Not authorized to delete this document") && unchanged(db)
    ensures id in old(db.docs) && CanModify(old(db.docs)[id], user) ==>
      && r == Reply(200, Removed)
      && db.docs == old(db.docs) - {id}
      && db.versions == CascadeDelete(old(db.versions), id)
      && db.order == Filter(old(db.order), (x: DocId) => x != id)
  {
    if id !in db.docs {
      return Refuse(404, "Document not found");
    }
    var document := db.docs[id];
    if !CanModify(document, user) {
      return Refuse(403, "Not authorized to delete this document");
    }
    Activity.LogControllerAction(log, user.id, Some(id), Activity.DeleteDocument,
                                 Some(map["title" := Activity.Value(document.title)]));
    db.RemoveDocument(id);
    r := Reply(200, Removed);
  }

  /** `shareDocument` with the user lookup in place (see `ShareAsWritten`):
      `knownUsers` are the ids `User.findById` finds. */
  method ShareDocument(user: AuthUser, id: DocId, target: UserId, permission: Option<string>,
                       knownUsers: set<UserId>, db: Database, log: Activity.ActivityLog)
    returns (r: Response<Payload>)
    requires db.Valid()
    modifies db, log
    ensures db.Valid() && log.records == old(log.records)
    ensures db.order == old(db.order) && db.versions == old(db.versions)
    ensures id !in old(db.docs) ==> r == Refuse(404, "Document not found") && db.docs == old(db.docs)
    ensures id in old(db.docs) ==>
      var s := Share(old(db.docs)[id], user, target, OrDefault(permission, "view"), knownUsers);
      && (s.Refuse? ==> r == Refuse(s.status, s.message) && db.docs == old(db.docs))
      && (s.Reply? ==>
            && r == Reply(200, Shared(id, old(db.docs)[id].title, target, OrDefault(permission, "view")))
            && (permission.None? ==> r.body.permission == "view")
            && db.docs == old(db.docs)[id := s.body])
  {
    if id !in db.docs {
      return Refuse(404, "Document not found");
    }
    var document := db.docs[id];
    var granted := OrDefault(permission, "view");
    var shared := Share(document, user, target, granted, knownUsers);
    if shared.Refuse? {
      return Refuse(shared.status, shared.message);
    }
    var saved := SaveEdited(db, shared.body);
    assert saved;
    Activity.LogControllerAction(log, user.id, Some(id), Activity.ShareDocument,
                                 Some(map["sharedWith" := Activity.Value(target),
                                          "permission" := Activity.Value(granted)]));
    r := Reply(200, Shared(id, document.title, target, granted));
  }

  /** `addTag`, with the duplicate check on the stored (trimmed) form; see
      `WithTagAsWritten`. The empty tag is refused before the lookup. */
  method AddTag(user: AuthUser, id: DocId, tag: string, db: Database, log: Activity.ActivityLog)
    returns (r: Response<Payload>)
    requires db.Valid()
    modifies db, log
    ensures db.Valid() && log.records == old(log.records)
    ensures db.order == old(db.order) && db.versions == old(db.versions)
    ensures r.Refuse? ==> db.docs == old(db.docs)
    ensures tag == "" ==> r == Refuse(400, "Tag is required")
    ensures tag != "" && id !in old(db.docs) ==> r == Refuse(404, "Document not found")
    ensures tag != "" && id in old(db.docs) && !CanModify(old(db.docs)[id], user) ==>
              r == Refuse(403, "Not authorized to modify this document")
    ensures tag != "" && id in old(db.docs) && CanModify(old(db.docs)[id], user) ==>
      var d := old(db.docs)[id];
      && (Trim(tag) in d.tags ==> r == Refuse(400, "Tag already exists"))
      && (Trim(tag) !in d.tags ==>
            && r == Reply(200, TagsBody(id, d.title, d.tags + [Trim(tag)]))
            && db.docs == old(db.docs)[id := d.(tags := d.tags + [Trim(tag)])])
  {
    if tag == "" {
      return Refuse(400, "Tag is required");
    }
    if id !in db.docs {
      return Refuse(404, "Document not found");
    }
    var document := db.docs[id];
    if !CanModify(document, user) {
      return Refuse(403, "Not authorized to modify this document");
    }
    var tags := WithTag(document.tags, tag);
    if tags.Err? {
      return Refuse(400, tags.message);
    }
    var edited := document.(tags := tags.value);
    var saved := SaveEdited(db, edited);
    assert saved;
    Activity.LogControllerAction(log, user.id, Some(id), Activity.AddTag,
                                 Some(map["tag" := Activity.Value(tag)]));
    r := Reply(200, TagsBody(id, edited.title, edited.tags));
  }

  /** `removeTag`: the first occurrence of the tag goes. */
  method RemoveTag(user: AuthUser, id: DocId, tag: string, db: Database, log: Activity.ActivityLog)
    returns (r: Response<Payload>)
    requires db.Valid()
    modifies db, log
    ensures db.Valid() && log.records == old(log.records)
    ensures db.order == old(db.order) && db.versions == old(db.versions)
    ensures r.Refuse? ==> db.docs == old(db.docs)
    ensures id !in old(db.docs) ==> r == Refuse(404, "Document not found")
    ensures id in old(db.docs) && !CanModify(old(db.docs)[id], user) ==>
              r == Refuse(403, "Not authorized to modify this document")
    ensures id in old(db.docs) && CanModify(old(db.docs)[id], user) ==>
      var d := old(db.docs)[id];
      && (tag !in d.tags ==> r == Refuse(400, "Tag not found"))
      && (tag in d.tags ==>
            var i := FirstIndex(d.tags, tag).value;
            && r == Reply(200, TagsBody(id, d.title, RemoveAt(d.tags, i)))
            && db.docs == old(db.docs)[id := d.(tags := RemoveAt(d.tags, i))])
  {
    if id !in db.docs {
      return Refuse(404, "Document not found");
    }
    var document := db.docs[id];
    if !CanModify(document, user) {
      return Refuse(403, "Not authorized to modify this document");
    }
    var index := FirstIndex(document.tags, tag);
    if index.None? {
      return Refuse(400, "Tag not found");
    }
    var edited := document.(tags := RemoveAt(document.tags, index.value));
    var saved := SaveEdited(db, edited);
    assert saved;
    Activity.LogControllerAction(log, user.id, Some(id), Activity.RemoveTag,
                                 Some(map["tag" := Activity.Value(tag)]));
    r := Reply(200, TagsBody(id, edited.title, edited.tags));
  }

  /** `generateEmbeddings`: unlike the other handlers it lets a failure of
      the embedding update through, as a 500. */
  method GenerateEmbeddings(user: AuthUser, id: DocId, db: Database, log: Activity.ActivityLog,
                            emb: Embeddings.EmbeddingService, gemini: GeminiService)
    returns (r: Response<Payload>)
    requires db.Valid()
    modifies db, log, emb`cache, gemini`embedCalls
    ensures db.Valid() && log.records == old(log.records)
    ensures db.order == old(db.order) && db.versions == old(db.versions)
    ensures id !in old(db.docs) ==> r == Refuse(404, "Document not found") && db.docs == old(db.docs)
    ensures id in old(db.docs) && !CanModify(old(db.docs)[id], user) ==>
              r == Refuse(403, "Not authorized to modify this document") && db.docs == old(db.docs)
    ensures id in old(db.docs) && CanModify(old(db.docs)[id], user) ==>
      var d := old(db.docs)[id];
      var e := Embeddings.EmbeddingOutcome(old(emb.cache), gemini.embedFn, d.content);
      && (e.Err? ==> r == Refuse(500, "Error generating embeddings") && db.docs == old(db.docs))
      && (e.Ok? ==>
            && r == Reply(200, EmbeddingsBody(id, d.title, |e.value| > 0))
            && db.docs == old(db.docs)[id := d.(embeddings := e.value)])
  {
    if id !in db.docs {
      return Refuse(404, "Document not found");
    }
    var document := db.docs[id];
    if !CanModify(document, user) {
      return Refuse(403, "Not authorized to modify this document");
    }
    var updated := emb.UpdateDocumentEmbeddings(db, id, gemini);
    if updated.Err? {
      return Refuse(500, "Error generating embeddings");
    }
    Activity.LogControllerAction(log, user.id, Some(id), Activity.GenerateEmbeddings,
                                 Some(map["title" := Activity.Value(document.title),
                                          "embeddingLength" := Activity.Value(NumberText(|updated.value.embeddings|))]));
    r := Reply(200, EmbeddingsBody(id, updated.value.title, |updated.value.embeddings| > 0));
  }
}
