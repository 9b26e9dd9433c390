/**
  Field resolution of the two insert endpoints, POST /books and POST /reservations.
  Each field is `body.field || query.field`, and some fields carry a literal default
  as a third operand. The JSON body may hold any value; query-string values are strings.
 */
module Parameters {
  import opened JsValues

  /** `req.body?.key`: the body's value, `undefined` when the key is missing. */
  function BodyField(body: map<string, JsValue>, key: string): (r: JsValue)
    ensures key in body ==> r == body[key]
    ensures key !in body ==> r == Undefined
  {
    if key in body then body[key] else Undefined
  }

  /** `req.query?.key`: the query-string value, `undefined` when the key is missing. */
  function QueryField(query: map<string, string>, key: string): (r: JsValue)
    ensures key in query ==> r == Str(query[key])
    ensures key !in query ==> r == Undefined
  {
    if key in query then Str(query[key]) else Undefined
  }

  /** `req.body?.key || req.query?.key`. */
  function Field(body: map<string, JsValue>, query: map<string, string>, key: string): (r: JsValue)
    ensures r == FirstTruthy([BodyField(body, key), QueryField(query, key)])
  {
    OrIsFirstTruthy(BodyField(body, key), QueryField(query, key));
    Or(BodyField(body, key), QueryField(query, key))
  }

  /** `req.body?.key || req.query?.key || default`. */
  function FieldOr(body: map<string, JsValue>, query: map<string, string>, key: string, default: JsValue): (r: JsValue)
    ensures r == FirstTruthy([BodyField(body, key), QueryField(query, key), default])
    ensures Truthy(default) ==> Truthy(r)
  {
    OrChainIsFirstTruthy(BodyField(body, key), QueryField(query, key), default);
    Or(Field(body, query, key), default)
  }

  /** The descriptive columns of a book, passed to the store as given. */
  datatype BookDetails = BookDetails(
    title: JsValue,
    author: JsValue,
    publisher: JsValue,
    yearPublished: JsValue,
    isbn: JsValue)

  /** The row POST /books hands to the store. */
  datatype NewBook = NewBook(details: BookDetails, totalCopies: JsValue, availableCopies: JsValue)

  /** The row POST /reservations hands to the store. */
  datatype NewReservation = NewReservation(memberId: JsValue, bookId: JsValue, status: JsValue)

  /**
    Resolves the columns of POST /books: each from the body if truthy, else from the
    query; `total_copies` falls back to 1 and `available_copies` to the resolved total.
   */
  function ResolveNewBook(body: map<string, JsValue>, query: map<string, string>): (r: NewBook)
    ensures r.details.title == FirstTruthy([BodyField(body, "title"), QueryField(query, "title")])
    ensures r.details.author == FirstTruthy([BodyField(body, "author"), QueryField(query, "author")])
    ensures r.details.publisher == FirstTruthy([BodyField(body, "publisher"), QueryField(query, "publisher")])
    ensures r.details.yearPublished == FirstTruthy([BodyField(body, "year_published"), QueryField(query, "year_published")])
    ensures r.details.isbn == FirstTruthy([BodyField(body, "isbn"), QueryField(query, "isbn")])
    ensures r.totalCopies == FirstTruthy([BodyField(body, "total_copies"), QueryField(query, "total_copies"), Num(1)])
    ensures r.availableCopies == FirstTruthy([BodyField(body, "available_copies"), QueryField(query, "available_copies"), r.totalCopies])
    // both counts are always set: neither can reach the store as 0, "" or missing
    ensures Truthy(r.totalCopies) && Truthy(r.availableCopies)
  {
    var totalCopies := FieldOr(body, query, "total_copies", Num(1));
    NewBook(
      BookDetails(
        Field(body, query, "title"),
        Field(body, query, "author"),
        Field(body, query, "publisher"),
        Field(body, query, "year_published"),
        Field(body, query, "isbn")),
      totalCopies,
      FieldOr(body, query, "available_copies", totalCopies))
  }

  /**
    Resolves the columns of POST /reservations: each from the body if truthy, else from
    the query; `status` falls back to "Active". The status is not checked against the
    allowed set here.
   */
  function ResolveNewReservation(body: map<string, JsValue>, query: map<string, string>): (r: NewReservation)
    ensures r.memberId == FirstTruthy([BodyField(body, "member_id"), QueryField(query, "member_id")])
    ensures r.bookId == FirstTruthy([BodyField(body, "book_id"), QueryField(query, "book_id")])
    ensures r.status == FirstTruthy([BodyField(body, "status"), QueryField(query, "status"), Str("Active")])
    ensures Truthy(r.status)
  {
    NewReservation(
      Field(body, query, "member_id"),
      Field(body, query, "book_id"),
      FieldOr(body, query, "status", Str("Active")))
  }

  /** A truthy body value wins whatever the query says. */
  lemma BodyTakesPrecedence(body: map<string, JsValue>, query1: map<string, string>, query2: map<string, string>,
                            key: string, default: JsValue)
    requires Truthy(BodyField(body, key))
    ensures FieldOr(body, query1, key, default) == FieldOr(body, query2, key, default) == BodyField(body, key)
  {
  }

  /** The query is consulted only when the body value is falsy; the default only when both are. */
  lemma FallbackOrder(body: map<string, JsValue>, query: map<string, string>, key: string, default: JsValue)
    requires !Truthy(BodyField(body, key))
    ensures key in query && query[key] != "" ==> FieldOr(body, query, key, default) == Str(query[key])
    ensures (key !in query || query[key] == "") ==> FieldOr(body, query, key, default) == default
  {
  }

  /**
    A JSON `0` in the body is falsy, so it is not honoured: with no query values a book
    posted with `total_copies: 0` gets 1 copy, and one posted with `available_copies: 0`
    gets as many available copies as its total.
   */
  lemma ZeroCountsFallBack(body: map<string, JsValue>, query: map<string, string>)
    requires "total_copies" !in query && "available_copies" !in query
    ensures BodyField(body, "total_copies") == Num(0) ==> ResolveNewBook(body, query).totalCopies == Num(1)
    ensures BodyField(body, "available_copies") == Num(0) ==>
              ResolveNewBook(body, query).availableCopies == ResolveNewBook(body, query).totalCopies
  {
  }

  /** With neither body nor query values, a book gets one copy, available. */
  lemma EmptyRequestDefaults()
    ensures ResolveNewBook(map[], map[]).totalCopies == Num(1)
    ensures ResolveNewBook(map[], map[]).availableCopies == Num(1)
    ensures ResolveNewReservation(map[], map[]).status == Str("Active")
  {
  }
}
