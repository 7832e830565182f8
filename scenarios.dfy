/**
 The behaviour the store's test suite asserts, one method per test. Each
 method starts from a fresh store, performs the same saves and queries, and
 promises in its postcondition what the test asserts, or a stronger fact
 that implies it. Random UUIDs and each reading of the current time are
 parameters. What a test relies on about UUIDs is a precondition: the string
 form of a UUID is never empty, and two random UUIDs differ.
 */
module DocumentManagerTests {
  import opened Documents
  import opened Store

  /** A document saved without an id comes back with one, and keeps its
      title. (The test checks the title of the document it passed in; the
      title of the returned document is the stronger claim.) */
  method SaveCreatesDocumentWithGeneratedId(authorId: string, now: int) returns (saved: Document)
    ensures saved.id.Some? && saved.id.value != ""
    ensures saved.title == "Test Document"
  {
    var store := new DocumentManager();
    var document := Document(None, "Test Document", "This is a test document",
                             Author(authorId, "Author"), now);
    saved := store.Save(document);
  }

  /** A second save under the same id replaces the title and the content. */
  method SaveUpsertsDocument(documentId: string, authorId: string, now: int)
    returns (result: Option<Document>)
    requires documentId != ""
    ensures result.Some?
    ensures result.value.title == "Updated Title"
    ensures result.value.content == "Updated Content"
  {
    var store := new DocumentManager();
    var document := Document(Some(documentId), "Test Title", "Test Content",
                             Author(authorId, "Author"), now);
    var _ := store.Save(document);
    var updated := Document(Some(documentId), "Updated Title", "Updated Content",
                            document.author, document.created);
    var _ := store.Save(updated);
    result := store.FindById(documentId);
  }

  /** A document saved under an explicit id is found under it. */
  method FindByIdReturnsDocumentIfFound(documentId: string, authorId: string, now: int)
    returns (found: Option<Document>)
    requires documentId != ""
    ensures found.Some? && found.value.title == "Test Document"
  {
    var store := new DocumentManager();
    var document := Document(Some(documentId), "Test Document", "Content",
                             Author(authorId, "Author"), now);
    var _ := store.Save(document);
    found := store.FindById(documentId);
  }

  /** Looking up an id that was never saved gives an empty answer. */
  method FindByIdReturnsEmptyIfNotFound() returns (found: Option<Document>)
    ensures found.None?
  {
    var store := new DocumentManager();
    found := store.FindById("non-existent-id");
  }

  /** Of "Title A" and "Title B", the prefix "Title A" selects only the first. */
  method SearchByTitlePrefix(id1: string, id2: string, author1: string, author2: string,
                             now1: int, now2: int)
    returns (result: seq<Document>)
    requires id1 != "" && id2 != "" && id1 != id2
    ensures |result| == 1 && result[0].title == "Title A"
  {
    var store := new DocumentManager();
    var doc1 := Document(Some(id1), "Title A", "Content 1", Author(author1, "Author A"), now1);
    var doc2 := Document(Some(id2), "Title B", "Content 2", Author(author2, "Author B"), now2);
    var _ := store.Save(doc1);
    var _ := store.Save(doc2);
    var request := SearchRequest(Some(["Title A"]), None, None);
    assert "Title A" in request.titlePrefixes.value && "Title A" <= doc1.title;
    assert !TitleMatches(request.titlePrefixes, doc2.title) by {
      assert doc2.title[6] != "Title A"[6];
    }
    assert store.MatchingIds(request) == {id1};
    result := store.Search(request);
    assert result[0] in result;
  }

  /** Only the document whose author id was asked for is returned. */
  method SearchByAuthorId(authorId: string, otherAuthorId: string, id1: string, id2: string,
                          now1: int, now2: int)
    returns (result: seq<Document>)
    requires id1 != "" && id2 != "" && id1 != id2 && authorId != otherAuthorId
    ensures |result| == 1 && result[0].author.id == authorId
  {
    var store := new DocumentManager();
    var doc1 := Document(Some(id1), "Title A", "Content 1", Author(authorId, "Author A"), now1);
    var doc2 := Document(Some(id2), "Title B", "Content 2", Author(otherAuthorId, "Author B"), now2);
    var _ := store.Save(doc1);
    var _ := store.Save(doc2);
    var request := SearchRequest(None, Some([authorId]), None);
    assert store.MatchingIds(request) == {id1};
    result := store.Search(request);
    assert result[0] in result;
  }

  /** With the bound an hour from now, the document from an hour ago is
      returned and the one created exactly at the bound is not. */
  method SearchByCreatedRange(id1: string, id2: string, author1: string, author2: string, now: int)
    returns (result: seq<Document>)
    requires id1 != "" && id2 != "" && id1 != id2
    ensures |result| == 1 && result[0].title == "Title A"
  {
    var store := new DocumentManager();
    var doc1 := Document(Some(id1), "Title A", "Content 1", Author(author1, "Author A"), now - 3600);
    var doc2 := Document(Some(id2), "Title B", "Content 2", Author(author2, "Author B"), now + 3600);
    var _ := store.Save(doc1);
    var _ := store.Save(doc2);
    var request := SearchRequest(None, None, Some(now + 3600));
    assert store.MatchingIds(request) == {id1};
    result := store.Search(request);
    assert result[0] in result;
  }

  /** Searching an empty store gives an empty list. */
  method SearchReturnsEmptyListIfNoDocumentsMatch() returns (result: seq<Document>)
    ensures result == []
  {
    var store := new DocumentManager();
    var request := SearchRequest(Some(["Non-existent"]), None, None);
    assert store.MatchingIds(request) == {};
    result := store.Search(request);
  }
}
