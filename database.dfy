/** The documents and versions collections, in memory, with the two Mongoose
    hooks that write across them: the Version pre-save hook
    (server/src/models/Version.js) that numbers a new version and moves the
    document's `currentVersion`, and the Document pre('remove') hook
    (server/src/models/Document.js) that deletes the document's versions.
    Each call runs to completion before the next one starts. */
module Database {
  import opened Common
  import opened Documents

  /** The documents of `ids`, in that order. */
  function InOrder(docs: map<DocId, Document>, ids: seq<DocId>): (r: seq<Document>)
    requires forall i :: 0 <= i < |ids| ==> ids[i] in docs
    ensures |r| == |ids|
    ensures forall i :: 0 <= i < |ids| ==> r[i] == docs[ids[i]]
  {
    if ids == [] then [] else [docs[ids[0]]] + InOrder(docs, ids[1..])
  }

  ghost predicate DocsWellFormed(docs: map<DocId, Document>) {
    forall id {:trigger docs[id]} :: id in docs ==> docs[id].id == id && id != "" && DocumentSavable(docs[id])
  }

  ghost predicate OrderMatches(docs: map<DocId, Document>, order: seq<DocId>) {
    forall id :: id in docs <==> id in order
  }

  /** Every version belongs to a stored document. */
  ghost predicate VersionsReferToDocs(docs: map<DocId, Document>, versions: seq<Version>) {
    forall i :: 0 <= i < |versions| ==> versions[i].document in docs
  }

  /** Every document's versions are numbered 1..currentVersion. */
  ghost predicate VersionsNumbered(docs: map<DocId, Document>, versions: seq<Version>) {
    forall id {:trigger CurrentVersionConsistent(versions, docs[id])} ::
      id in docs ==> CurrentVersionConsistent(versions, docs[id])
  }

  ghost predicate StoreInvariant(docs: map<DocId, Document>, order: seq<DocId>, versions: seq<Version>) {
    && DocsWellFormed(docs)
    && OrderMatches(docs, order)
    && UniqueVersionNumbers(versions)
    && VersionsReferToDocs(docs, versions)
    && VersionsNumbered(docs, versions)
  }

  /** Inserting a version through the hook, and setting the document's
      current version to the assigned number, keeps the store invariant. */
  lemma VersionInsertKeepsInvariant(docs: map<DocId, Document>, order: seq<DocId>,
                                    versions: seq<Version>, v: Version)
    requires StoreInvariant(docs, order, versions) && v.document in docs
    ensures var d := v.document;
            StoreInvariant(docs[d := docs[d].(currentVersion := NextVersionNumber(versions, d))],
                           order, InsertVersion(versions, v))
  {
    var d := v.document;
    var n := NextVersionNumber(versions, d);
    var docs' := docs[d := docs[d].(currentVersion := n)];
    var versions' := InsertVersion(versions, v);
    assert docs'.Keys == docs.Keys;
    InsertKeepsUnique(versions, v);
    var k := if NumbersOf(versions, d) == {} then 0 else docs[d].currentVersion;
    assert CurrentVersionConsistent(versions, docs[d]);
    assert NumbersOf(versions, d) == Range(k);
    GapFreeInsert(versions, v, k);
    assert CurrentVersionConsistent(versions', docs'[d]);
    forall id | id in docs' && id != d
      ensures CurrentVersionConsistent(versions', docs'[id])
    {
      assert CurrentVersionConsistent(versions, docs[id]);
      InsertNumbers(versions, v, id);
    }
    assert VersionsReferToDocs(docs', versions');
  }

  /** Removing a document together with its versions keeps the invariant. */
  lemma RemoveKeepsInvariant(docs: map<DocId, Document>, order: seq<DocId>,
                             versions: seq<Version>, id: DocId)
    requires StoreInvariant(docs, order, versions) && id in docs
    ensures StoreInvariant(docs - {id}, Filter(order, (x: DocId) => x != id),
                           CascadeDelete(versions, id))
  {
    var docs' := docs - {id};
    var order' := Filter(order, (x: DocId) => x != id);
    var versions' := CascadeDelete(versions, id);
    forall e | e in docs'
      ensures CurrentVersionConsistent(versions', docs'[e])
    {
      assert CurrentVersionConsistent(versions, docs[e]);
      CascadeDeleteSpec(versions, id, e);
    }
    forall x ensures x in docs' <==> x in order' {
      if x in order {
        var i :| 0 <= i < |order| && order[i] == x;
      }
    }
    forall i, j | 0 <= i < j < |versions'| && versions'[i].document == versions'[j].document
      ensures versions'[i].versionNumber != versions'[j].versionNumber
    {
      CascadeKeepsUnique(versions, id);
    }
  }

  lemma {:induction false} CascadeKeepsUnique(vs: seq<Version>, id: DocId)
    requires UniqueVersionNumbers(vs)
    ensures UniqueVersionNumbers(CascadeDelete(vs, id))
  {
    if vs != [] {
      var tail := CascadeDelete(vs[1..], id);
      CascadeKeepsUnique(vs[1..], id);
      var head := if vs[0].document != id then [vs[0]] else [];
      assert CascadeDelete(vs, id) == head + tail;
      if head != [] {
        forall j | 0 <= j < |tail| && tail[j].document == vs[0].document
          ensures tail[j].versionNumber != vs[0].versionNumber
        {
          var k :| 0 <= k < |vs[1..]| && vs[1..][k] == tail[j];
          assert vs[k + 1] == tail[j];
        }
      }
    }
  }

  class Database {
    var docs: map<DocId, Document>
    /** Natural order of the documents collection (order of insertion). */
    var order: seq<DocId>
    var versions: seq<Version>

    ghost predicate Valid()
      reads this
    {
      StoreInvariant(docs, order, versions)
    }

    constructor ()
      ensures Valid() && docs == map[] && order == [] && versions == []
    {
      docs := map[];
      order := [];
      versions := [];
    }

    /** `Document.find(...)` without a sort: every document in natural order. */
    function All(): (r: seq<Document>)
      reads this
      requires Valid()
      ensures |r| == |order| && forall i :: 0 <= i < |r| ==> r[i] in docs.Values
      ensures forall i :: 0 <= i < |r| ==> order[i] in docs && r[i] == docs[order[i]]
    {
      InOrder(docs, order)
    }

    /** `new Document(d).save()`: schema validation, then insertion. */
    method InsertDocument(d: Document) returns (ok: bool)
      requires Valid()
      requires d.id !in docs && d.id != "" && d.currentVersion == 1
      modifies this
      ensures Valid()
      ensures ok == DocumentSavable(d)
      ensures ok ==> docs == old(docs)[d.id := d] && order == old(order) + [d.id]
      ensures !ok ==> docs == old(docs) && order == old(order)
      ensures versions == old(versions)
    {
      ok := DocumentSavable(d);
      if ok {
        forall i | 0 <= i < |versions| ensures versions[i].document != d.id {
          NumbersOfMember(versions, d.id, versions[i].versionNumber);
          assert versions[i].document in old(docs);
        }
        NoVersionsOfFreshId(d.id);
        docs := docs[d.id := d];
        order := order + [d.id];
      }
    }

    lemma NoVersionsOfFreshId(id: DocId)
      requires Valid() && id !in docs
      ensures NumbersOf(versions, id) == {}
    {
      forall n ensures n !in NumbersOf(versions, id) {
        NumbersOfMember(versions, id, n);
      }
    }

    /** `document.save()` of a loaded, modified document: schema validation,
        then the stored document is replaced. */
    method SaveDocument(d: Document) returns (ok: bool)
      requires Valid()
      requires d.id in docs && CurrentVersionConsistent(versions, d)
      modifies this
      ensures Valid()
      ensures ok == DocumentSavable(d)
      ensures ok ==> docs == old(docs)[d.id := d]
      ensures !ok ==> docs == old(docs)
      ensures order == old(order) && versions == old(versions)
    {
      ok := DocumentSavable(d);
      if ok {
        docs := docs[d.id := d];
      }
    }

    /** `new Version(v).save()`: validation, then the pre-save hook assigns
        the next number (ignoring `v.versionNumber`) and writes it into the
        document's `currentVersion`, then the insertion, which the unique
        index admits because the number is new. */
    method SaveNewVersion(v: Version) returns (ok: bool, n: int)
      requires Valid()
      requires v.document in docs
      modifies this
      ensures Valid()
      ensures ok == VersionSavable(v)
      ensures n == NextVersionNumber(old(versions), v.document)
      ensures n == if NumbersOf(old(versions), v.document) == {} then 1
                   else old(docs)[v.document].currentVersion + 1
      ensures ok ==> versions == InsertVersion(old(versions), v)
      ensures ok ==> docs == old(docs)[v.document := old(docs)[v.document].(currentVersion := n)]
      ensures !ok ==> docs == old(docs) && versions == old(versions)
      ensures order == old(order)
    {
      var d := v.document;
      assert CurrentVersionConsistent(versions, docs[d]);
      CurrentIsLatest(versions, docs[d]);
      n := NextVersionNumber(versions, d);
      ok := VersionSavable(v);
      if !ok {
        return;
      }
      VersionInsertKeepsInvariant(docs, order, versions, v);
      docs := docs[d := docs[d].(currentVersion := n)];
      versions := InsertVersion(versions, v);
    }

    /** `document.remove()`: the pre('remove') hook deletes every version of
        the document, then the document itself goes. */
    method RemoveDocument(id: DocId)
      requires Valid() && id in docs
      modifies this
      ensures Valid()
      ensures versions == CascadeDelete(old(versions), id)
      ensures docs == old(docs) - {id}
      ensures order == Filter(old(order), (x: DocId) => x != id)
    {
      RemoveKeepsInvariant(docs, order, versions, id);
      versions := CascadeDelete(versions, id);
      docs := docs - {id};
      order := Filter(order, (x: DocId) => x != id);
    }
  }
}
