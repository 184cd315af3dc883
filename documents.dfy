/** The Document and Version records (server/src/models/Document.js and
    server/src/models/Version.js): their fields, the schema defaults and
    required fields, the `versions` relation, and the version-numbering rule
    shared by the controller and the Version pre-save hook. Everything here
    is a value; the store that holds these records is module Database. */
module Documents {
  import opened Common

  type DocId = string
  type UserId = string

  datatype Document = Document(
    id: DocId,
    title: string,
    content: string,
    owner: UserId,
    isPublic: bool,
    tags: seq<string>,
    collaborators: seq<UserId>,
    currentVersion: int,
    embeddings: seq<real>,
    metadata: map<string, string>)

  datatype Version = Version(
    document: DocId,
    versionNumber: int,
    content: string,
    changes: string,
    createdBy: UserId)

  // ---------------------------------------------------------------------------
  // Schema: defaults and required fields

  /** The requesting user as the auth middleware leaves it in `req.user`. */
  datatype AuthUser = AuthUser(id: UserId, role: string)

  /** The schema's trim setter on every element of `tags`. */
  function TrimAll(tags: seq<string>): (r: seq<string>)
    ensures |r| == |tags| && forall i :: 0 <= i < |r| ==> r[i] == Trim(tags[i])
  {
    seq(|tags|, i requires 0 <= i < |tags| => Trim(tags[i]))
  }

  /** `new Document({ title, content, owner, isPublic, tags, metadata })`: the
      title and each tag go through the schema's trim setter,
      `currentVersion` takes its default 1 and `embeddings` its default [].
      The schema has no `collaborators` path, so the new document has no
      collaborators. */
  function NewDocument(id: DocId, title: string, content: string, owner: UserId,
                       isPublic: bool, tags: seq<string>, metadata: map<string, string>): (d: Document)
    ensures d.id == id && d.title == Trim(title) && d.content == content && d.owner == owner
    ensures d.isPublic == isPublic && d.tags == TrimAll(tags) && d.metadata == metadata
    ensures d.currentVersion == 1 && d.embeddings == [] && d.collaborators == []
  {
    Document(id, Trim(title), content, owner, isPublic, TrimAll(tags), [], 1, [], metadata)
  }

  /** Mongoose's `required` on strings rejects the empty string: a document
      saves only with a non-empty title, content and owner. */
  predicate DocumentSavable(d: Document) {
    d.title != "" && d.content != "" && d.owner != ""
  }

  /** A version saves only with its document, content, changes and author. */
  predicate VersionSavable(v: Version) {
    v.document != "" && v.content != "" && v.changes != "" && v.createdBy != ""
  }

  // ---------------------------------------------------------------------------
  // The `versions` relation and the numbers it holds

  function VersionsOf(vs: seq<Version>, d: DocId): (r: seq<Version>)
    ensures forall i :: 0 <= i < |r| ==> r[i] in vs && r[i].document == d
    ensures forall i :: 0 <= i < |vs| && vs[i].document == d ==> vs[i] in r
  {
    Filter(vs, (v: Version) => v.document == d)
  }

  /** The version numbers stored for document d. */
  function NumbersOf(vs: seq<Version>, d: DocId): set<int>
  {
    if vs == [] then {}
    else NumbersOf(vs[..|vs| - 1], d)
         + (if vs[|vs| - 1].document == d then {vs[|vs| - 1].versionNumber} else {})
  }

  lemma {:induction false} NumbersOfMember(vs: seq<Version>, d: DocId, n: int)
    ensures n in NumbersOf(vs, d) <==>
            exists i :: 0 <= i < |vs| && vs[i].document == d && vs[i].versionNumber == n
  {
    if vs != [] {
      var init := vs[..|vs| - 1];
      NumbersOfMember(init, d, n);
      if n in NumbersOf(vs, d) && n !in NumbersOf(init, d) {
        assert vs[|vs| - 1].document == d && vs[|vs| - 1].versionNumber == n;
      }
      if exists i :: 0 <= i < |vs| && vs[i].document == d && vs[i].versionNumber == n {
        var i :| 0 <= i < |vs| && vs[i].document == d && vs[i].versionNumber == n;
        if i < |vs| - 1 {
          assert init[i] == vs[i];
        }
      }
    }
  }

  /** `Version.findOne({ document: d }, ..., { sort: { versionNumber: -1 } })`:
      the highest version number stored for d, if any. */
  function LatestNumber(vs: seq<Version>, d: DocId): (r: Option<int>)
    ensures r.None? <==> NumbersOf(vs, d) == {}
    ensures r.Some? ==> r.value in NumbersOf(vs, d)
    ensures r.Some? ==> forall n :: n in NumbersOf(vs, d) ==> n <= r.value
  {
    if vs == [] then None
    else
      var rest := LatestNumber(vs[..|vs| - 1], d);
      var v := vs[|vs| - 1];
      if v.document != d then rest
      else if rest.None? || rest.value < v.versionNumber then Some(v.versionNumber)
      else rest
  }

  /** `latestVersion ? latestVersion.versionNumber + 1 : 1`, the number the
      controller computes and the pre-save hook assigns. */
  function NextVersionNumber(vs: seq<Version>, d: DocId): int
  {
    match LatestNumber(vs, d)
    case None => 1
    case Some(m) => m + 1
  }

  /** The Version pre-save hook: a new version is renumbered, whatever number
      the caller gave it; re-saving an existing one keeps its number. */
  function PreSaveVersionNumber(vs: seq<Version>, v: Version, isNew: bool): (n: int)
    ensures !isNew ==> n == v.versionNumber
    ensures isNew ==> n !in NumbersOf(vs, v.document)
    ensures isNew ==> forall m :: m in NumbersOf(vs, v.document) ==> m < n
    ensures isNew && NumbersOf(vs, v.document) == {} ==> n == 1
  {
    if isNew then NextVersionNumber(vs, v.document) else v.versionNumber
  }

  /** Insertion of a new version through the hook. */
  function InsertVersion(vs: seq<Version>, v: Version): seq<Version>
  {
    vs + [v.(versionNumber := NextVersionNumber(vs, v.document))]
  }

  /** The unique compound index `{ document: 1, versionNumber: 1 }`. */
  ghost predicate UniqueVersionNumbers(vs: seq<Version>) {
    forall i, j :: 0 <= i < j < |vs| && vs[i].document == vs[j].document
      ==> vs[i].versionNumber != vs[j].versionNumber
  }

  /** The set {1, ..., n}. */
  function Range(n: int): (r: set<int>)
    ensures forall i :: i in r <==> 1 <= i <= n
  {
    if n <= 0 then {} else Range(n - 1) + {n}
  }

  /** The version numbers of d are exactly 1..current, or d has no version yet
      and keeps its default current version 1. */
  ghost predicate CurrentVersionConsistent(vs: seq<Version>, d: Document) {
    || (d.currentVersion >= 1 && NumbersOf(vs, d.id) == Range(d.currentVersion))
    || (NumbersOf(vs, d.id) == {} && d.currentVersion == 1)
  }

  // ---------------------------------------------------------------------------
  // Properties of numbering

  /** Numbering through the hook never collides with a stored number, so the
      unique index never rejects an insertion made in sequence. */
  lemma InsertKeepsUnique(vs: seq<Version>, v: Version)
    requires UniqueVersionNumbers(vs)
    ensures UniqueVersionNumbers(InsertVersion(vs, v))
  {
    var n := NextVersionNumber(vs, v.document);
    var ws := InsertVersion(vs, v);
    forall i | 0 <= i < |vs| && vs[i].document == v.document
      ensures vs[i].versionNumber != n
    {
      NumbersOfMember(vs, v.document, vs[i].versionNumber);
    }
    assert forall i :: 0 <= i < |vs| ==> ws[i] == vs[i];
  }

  /** Insertion adds exactly the assigned number to the inserted version's
      document, and nothing to any other document. */
  lemma InsertNumbers(vs: seq<Version>, v: Version, d: DocId)
    ensures NumbersOf(InsertVersion(vs, v), d) ==
      NumbersOf(vs, d) + (if d == v.document then {NextVersionNumber(vs, d)} else {})
  {
    var ws := InsertVersion(vs, v);
    assert ws[..|ws| - 1] == vs;
  }

  /** On a gap-free document the next number is one past the current one,
      and inserting it keeps the numbers gap-free. */
  lemma {:induction false} GapFreeInsert(vs: seq<Version>, v: Version, k: nat)
    requires NumbersOf(vs, v.document) == Range(k)
    ensures NextVersionNumber(vs, v.document) == k + 1
    ensures NumbersOf(InsertVersion(vs, v), v.document) == Range(k + 1)
  {
    var d := v.document;
    if k == 0 {
      assert Range(0) == {};
    } else {
      assert LatestNumber(vs, d) == Some(k);
    }
    InsertNumbers(vs, v, d);
    assert Range(k + 1) == Range(k) + {k + 1};
  }

  /** A consistent document's current version is the highest stored number,
      and the next one is current + 1 (or 1 before the first version). */
  lemma CurrentIsLatest(vs: seq<Version>, d: Document)
    requires CurrentVersionConsistent(vs, d)
    ensures NumbersOf(vs, d.id) != {} ==> LatestNumber(vs, d.id) == Some(d.currentVersion)
    ensures NextVersionNumber(vs, d.id) ==
            if NumbersOf(vs, d.id) == {} then 1 else d.currentVersion + 1
  {
  }

  /** N insertions in sequence. */
  function InsertAll(vs: seq<Version>, batch: seq<Version>): seq<Version>
    decreases |batch|
  {
    if batch == [] then vs else InsertAll(InsertVersion(vs, batch[0]), batch[1..])
  }

  /** N sequential insertions for a document that had none yield exactly the
      numbers 1..N, the latest is N, and the unique index is kept. */
  lemma {:induction false} SequentialInserts(vs: seq<Version>, d: DocId, batch: seq<Version>, k: nat)
    requires UniqueVersionNumbers(vs)
    requires NumbersOf(vs, d) == Range(k)
    requires forall i :: 0 <= i < |batch| ==> batch[i].document == d
    ensures NumbersOf(InsertAll(vs, batch), d) == Range(k + |batch|)
    ensures UniqueVersionNumbers(InsertAll(vs, batch))
    decreases |batch|
  {
    if batch != [] {
      var next := InsertVersion(vs, batch[0]);
      GapFreeInsert(vs, batch[0], k);
      InsertKeepsUnique(vs, batch[0]);
      assert forall i :: 0 <= i < |batch[1..]| ==> batch[1..][i].document == d;
      SequentialInserts(next, d, batch[1..], k + 1);
      assert InsertAll(vs, batch) == InsertAll(next, batch[1..]);
    }
  }

  /** After N insertions into a document that had none, the latest stored
      number, which the hook copies into `currentVersion`, is N. */
  lemma LatestAfterInserts(vs: seq<Version>, d: DocId, batch: seq<Version>)
    requires UniqueVersionNumbers(vs) && NumbersOf(vs, d) == {}
    requires batch != [] && forall i :: 0 <= i < |batch| ==> batch[i].document == d
    ensures LatestNumber(InsertAll(vs, batch), d) == Some(|batch|)
  {
    assert Range(0) == {};
    SequentialInserts(vs, d, batch, 0);
    var r := LatestNumber(InsertAll(vs, batch), d);
    assert |batch| in NumbersOf(InsertAll(vs, batch), d);
    assert r.value in Range(|batch|);
  }

  // ---------------------------------------------------------------------------
  // The pre('remove') cascade

  /** `Version.deleteMany({ document: d })`. */
  function CascadeDelete(vs: seq<Version>, d: DocId): seq<Version>
  {
    Filter(vs, (v: Version) => v.document != d)
  }

  /** The cascade removes every version of d and keeps every other version,
      in its order. */
  lemma {:induction false} CascadeDeleteSpec(vs: seq<Version>, d: DocId, e: DocId)
    ensures NumbersOf(CascadeDelete(vs, d), d) == {}
    ensures e != d ==> VersionsOf(CascadeDelete(vs, d), e) == VersionsOf(vs, e)
    ensures e != d ==> NumbersOf(CascadeDelete(vs, d), e) == NumbersOf(vs, e)
  {
    var r := CascadeDelete(vs, d);
    forall n ensures n !in NumbersOf(r, d) {
      NumbersOfMember(r, d, n);
    }
    if e != d {
      CascadeVersionsOf(vs, d, e);
      forall n ensures n in NumbersOf(r, e) <==> n in NumbersOf(vs, e) {
        NumbersOfMember(r, e, n);
        NumbersOfMember(vs, e, n);
        if n in NumbersOf(vs, e) {
          var i :| 0 <= i < |vs| && vs[i].document == e && vs[i].versionNumber == n;
          assert vs[i] in r;
        }
      }
    }
  }

  lemma {:induction false} CascadeVersionsOf(vs: seq<Version>, d: DocId, e: DocId)
    requires e != d
    ensures VersionsOf(CascadeDelete(vs, d), e) == VersionsOf(vs, e)
  {
    if vs != [] {
      var keep := (v: Version) => v.document != d;
      var of := (v: Version) => v.document == e;
      var head := if keep(vs[0]) then [vs[0]] else [];
      assert CascadeDelete(vs, d) == head + CascadeDelete(vs[1..], d);
      FilterAppend(head, CascadeDelete(vs[1..], d), of);
      CascadeVersionsOf(vs[1..], d, e);
      assert VersionsOf(vs, e) == (if of(vs[0]) then [vs[0]] else []) + VersionsOf(vs[1..], e);
    }
  }
}
