/**
 The value objects of the document store: authors, documents and search
 requests, and the predicate that decides whether a document satisfies a
 request. All of these are immutable values; the store itself is in store.dfy.
 */
module Documents {

  /** An optional value, standing for a Java reference that may be null or an
      `Optional` that may be empty. */
  datatype Option<+T> = None | Some(value: T)

  /** The creator of a document: an identifier and a display name. */
  datatype Author = Author(id: string, name: string)

  /** A stored record. `id` is absent on a document the store has not yet
      given an identifier; `created` is a point in time as an integer
      count of seconds. */
  datatype Document = Document(
    id: Option<string>,
    title: string,
    content: string,
    author: Author,
    created: int)

  /** A search filter whose criteria are each optional. An absent criterion
      does not filter. `createdTo` is an exclusive upper bound on `created`. */
  datatype SearchRequest = SearchRequest(
    titlePrefixes: Option<seq<string>>,
    authorIds: Option<seq<string>>,
    createdTo: Option<int>)

  /** The request built with no criteria set. */
  const NO_CRITERIA := SearchRequest(None, None, None)

  /** The title starts with one of the prefixes; an absent or empty list of
      prefixes accepts every title. The test is case-sensitive and exact. */
  predicate TitleMatches(prefixes: Option<seq<string>>, title: string)
  {
    prefixes.None? || prefixes.value == [] ||
    exists p :: p in prefixes.value && p <= title
  }

  /** The author's id is one of the given ids; an absent or empty list of ids
      accepts every author. */
  predicate AuthorMatches(authorIds: Option<seq<string>>, author: Author)
  {
    authorIds.None? || authorIds.value == [] || author.id in authorIds.value
  }

  /** The document was created strictly before the bound, when there is one. */
  predicate CreatedMatches(createdTo: Option<int>, created: int)
  {
    createdTo.None? || created < createdTo.value
  }

  /** A document satisfies a request when it satisfies every criterion. */
  predicate Matches(req: SearchRequest, d: Document)
  {
    && TitleMatches(req.titlePrefixes, d.title)
    && AuthorMatches(req.authorIds, d.author)
    && CreatedMatches(req.createdTo, d.created)
  }

  /** A request with no criteria set filters nothing out. */
  lemma NoCriteriaMatchesAll(d: Document)
    ensures Matches(NO_CRITERIA, d)
  {
  }

  /** With only title prefixes set, a document matches exactly when one of
      the (non-empty list of) prefixes is a prefix of its title. */
  lemma TitlePrefixesOnly(prefixes: seq<string>, d: Document)
    requires prefixes != []
    ensures Matches(SearchRequest(Some(prefixes), None, None), d)
            <==> exists p :: p in prefixes && p <= d.title
  {
  }

  /** With only author ids set, a document matches exactly when its author's
      id is in the (non-empty) list. */
  lemma AuthorIdsOnly(authorIds: seq<string>, d: Document)
    requires authorIds != []
    ensures Matches(SearchRequest(None, Some(authorIds), None), d)
            <==> d.author.id in authorIds
  {
  }

  /** With only `createdTo` set, a document matches exactly when it was
      created before the bound: one created at the bound itself does not. */
  lemma CreatedToIsExclusive(bound: int, d: Document)
    ensures Matches(SearchRequest(None, None, Some(bound)), d) <==> d.created < bound
  {
  }
}
