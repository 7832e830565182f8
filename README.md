# DocumentManager — an in-memory document store, modelled in Dafny

`DocumentManager` stores `Document` records, each written by an `Author`. It has
three operations:

- `save` is an upsert keyed by document id. A document that has no id is given
  a fresh one.
- `findById` returns the document stored under an id, or an empty `Optional`.
- `search` returns the stored documents that satisfy a `SearchRequest`. A
  request has three optional criteria: a list of title prefixes, a list of
  author ids, and an upper bound `createdTo` on the creation time. A criterion
  that is not set does not filter, and the criteria that are set are combined
  with AND.

The production class is not part of this model's sources. Its behaviour is
inferred from its test suite, `src/test/java/main/DocumentManagerTest.java`.
The model follows what those assertions require.

Files:

- `documents.dfy` (module `Documents`) holds the values `Author`, `Document`
  and `SearchRequest`, plus the predicate `Matches` that decides whether a
  document satisfies a request.
- `store.dfy` (module `Store`) holds the class `DocumentManager`. Its
  `docs: map<string, Document>` field is the table, and `order: seq<string>`
  records the stored ids in first-save order, so that `Search` can return a
  sequence. The module also holds the filter `Filter` and the lemmas behind
  `Search`'s contract.
- `scenarios.dfy` (module `DocumentManagerTests`) has one method per test. Each
  method starts from a new store and repeats the test's saves and queries. Its
  postconditions state the test's assertions, or slightly stronger facts that
  imply them. For example, the first test checks the title of the document it
  passed in, while the scenario claims the title of the returned document.

Decisions:

- The `createdTo` bound is exclusive: a document matches only when
  `created < createdTo`. The test at `DocumentManagerTest.java:155-185`
  requires this, because it excludes a document created exactly at the bound.
  An inclusive bound would make the assertion at `DocumentManagerTest.java:183`
  fail.
- A title matches a prefix `p` when `p` is a prefix of the title (`p <= title`).
  The comparison is exact and case-sensitive. An author matches when its id is
  in the list.
- An empty list of prefixes or author ids is treated like an absent one and
  does not filter. No test exercises an empty list.
- A document whose id is absent or empty gets a generated id, so no stored
  document has an empty id. Callers are promised only that the generated id
  is non-empty and not already stored. The model computes a string one
  character longer than every stored id. Any other non-empty id is used
  exactly as given.
- `FindById` and `Search` are functions that read the store, so they cannot
  change it.

## Model

| member | source | states |
|---|---|---|
| `Store.DocumentManager.constructor` | src/test/java/main/DocumentManagerTest.java:18-20 | a new store is empty and satisfies the store invariant |
| `Store.DocumentManager.Save` | src/test/java/main/DocumentManagerTest.java:31-33 | the saved document has a non-empty id. A non-empty id is kept and the document is stored unchanged. A missing or empty id is replaced by a non-empty id not yet stored, with every other field kept. The new table is the old one with that id mapped to the saved document, so a previous entry is fully replaced and all other entries are unchanged |
| `Store.UnusedId` | src/test/java/main/DocumentManagerTest.java:23-33 | the generated id is non-empty and differs from every stored id, so a document without an id never overwrites another |
| `Store.MaxLength` | src/test/java/main/DocumentManagerTest.java:31-33 | it returns the length of the longest stored id (0 when none is stored): no stored id is longer, and some stored id has exactly that length. The bound is what makes the generated id new |
| `Store.DocumentManager.FindById` | src/test/java/main/DocumentManagerTest.java:80-88 | the answer is present exactly when the id is stored; when present it is the stored document, and that document's id is the one asked for |
| `Store.SaveThenFind` | src/test/java/main/DocumentManagerTest.java:78-82 | after a save, looking up the saved id returns exactly the saved document (the given one when it had an id), and every other stored id still returns its previous document |
| `Store.DocumentManager.Search` | src/test/java/main/DocumentManagerTest.java:116-119 | every result is a stored document, stored under its own id, that satisfies the request. Every stored document that satisfies the request is in the result. No document appears twice, and the result's length equals the number of matching stored ids. No order is promised |
| `Store.SearchWithoutCriteriaReturnsAll` | src/test/java/main/DocumentManagerTest.java:112-118 | a request with no criteria set returns every stored document, and exactly as many documents as are stored |
| `Documents.Matches` | src/test/java/main/DocumentManagerTest.java:112-184 | a document satisfies a request exactly when it satisfies every criterion that is set: some listed prefix starts its title (:112-119), its author's id is listed (:144-151), and it was created strictly before `createdTo` (:177-184). A criterion that is absent or an empty list accepts every document |
| `Store.Filter` | src/test/java/main/DocumentManagerTest.java:116-181 | the linear scan behind `search` (used at :116, :148 and :181): it returns no more documents than ids scanned, and every document it returns satisfies the request |
| `Store.FilterSound` | src/test/java/main/DocumentManagerTest.java:148-151 | every document the filter returns satisfies the request and is the one stored under its own id, which is among the ids scanned |
| `Store.FilterComplete` | src/test/java/main/DocumentManagerTest.java:181-184 | every scanned document that satisfies the request is returned by the filter |
| `Store.FilterDistinct` | src/test/java/main/DocumentManagerTest.java:118 | over distinct ids whose documents carry their own keys, the filter returns no document twice |
| `Store.FilterCount` | src/test/java/main/DocumentManagerTest.java:193-195 | over distinct ids, the filter returns exactly as many documents as there are matching ids |
| `Documents.NoCriteriaMatchesAll` | src/test/java/main/DocumentManagerTest.java:112-114 | a request with no criteria set matches every document |
| `Documents.TitlePrefixesOnly` | src/test/java/main/DocumentManagerTest.java:112-119 | with only title prefixes set, a document matches exactly when some listed prefix is a prefix of its title |
| `Documents.AuthorIdsOnly` | src/test/java/main/DocumentManagerTest.java:144-151 | with only author ids set, a document matches exactly when its author's id is listed |
| `Documents.CreatedToIsExclusive` | src/test/java/main/DocumentManagerTest.java:177-184 | with only `createdTo` set, a document matches exactly when it was created strictly before the bound; a document created at the bound does not match |
| `DocumentManagerTests.SaveCreatesDocumentWithGeneratedId` | src/test/java/main/DocumentManagerTest.java:23-35 | saving a document built without an id returns one with a non-empty id and the same title |
| `DocumentManagerTests.SaveUpsertsDocument` | src/test/java/main/DocumentManagerTest.java:38-65 | after two saves under one id, lookup returns the second document's title and content |
| `DocumentManagerTests.FindByIdReturnsDocumentIfFound` | src/test/java/main/DocumentManagerTest.java:68-83 | a document saved under an explicit (non-empty, as a UUID is) id is found under it, with its title |
| `DocumentManagerTests.FindByIdReturnsEmptyIfNotFound` | src/test/java/main/DocumentManagerTest.java:86-89 | looking up an id that was never saved returns an empty answer |
| `DocumentManagerTests.SearchByTitlePrefix` | src/test/java/main/DocumentManagerTest.java:92-120 | over "Title A" and "Title B" with distinct ids, the prefix "Title A" returns exactly one document, titled "Title A" |
| `DocumentManagerTests.SearchByAuthorId` | src/test/java/main/DocumentManagerTest.java:123-152 | over two documents with distinct ids and authors, asking for one author id returns exactly one document, by that author |
| `DocumentManagerTests.SearchByCreatedRange` | src/test/java/main/DocumentManagerTest.java:155-185 | with documents created an hour before and an hour after `now`, and the bound an hour after `now`, exactly one document is returned, the earlier one |
| `DocumentManagerTests.SearchReturnsEmptyListIfNoDocumentsMatch` | src/test/java/main/DocumentManagerTest.java:188-196 | a search of an empty store returns the empty sequence |

## Left out

- UUID generation (`UUID.randomUUID()`) is not modelled. The model computes an id that is non-empty and not yet stored (`Store.UnusedId`), and `Save`'s contract promises only those two facts. What a test relies on about random UUIDs becomes a precondition of the scenario method: the string form of a UUID is never empty, and two random UUIDs differ.
- The clock (`Instant.now()`, `plusSeconds`, `minusSeconds`) is not modelled. Times are integers counting seconds, and "now" is a parameter.
- The builder pattern for `Document` and `SearchRequest` is left out. The model uses datatype constructors, with `Option` for the fields a builder may leave unset.
- Other search criteria of `SearchRequest`, such as a lower time bound, are left out. No test sets them, so there is no evidence of how they behave.
- Result order is not promised. The model returns matches in first-save order, but no contract says so, because the tests check only counts and members.
- Java `null` for an unset id or criterion is modelled as `None`. A null request or null document is a caller error, not part of the model.
- A null title, content, author or creation time inside a document is not modelled. The Java builder allows such fields to be left unset, but the model makes them mandatory, and no test leaves one unset.
- The JUnit harness (`@BeforeEach`, `@Test`, the `Assert` calls) is not modelled. It becomes the scenario methods and their postconditions.
