/**
  The two update endpoints that read and then write a table, over a store abstracted as
  one map per table, keyed by row id. Each handler runs as one atomic step.
 */
module LibraryStore {
  import opened JsValues
  import opened Reconciliation
  import opened Parameters
  import opened Reservations

  /** A row of the books table. */
  datatype Book = Book(details: BookDetails, totalCopies: int, availableCopies: int)

  /** A row of the reservations table; inserts do not validate the status, so it is any string. */
  datatype Reservation = Reservation(memberId: int, bookId: int, status: string)

  /** Result of PUT /books/:book_id. */
  datatype BookUpdateOutcome =
    | BookNotFound
    | BookUpdated(bookId: int, copyDifference: int, newAvailableCopies: int)
  {
    /** The HTTP status code of the response. */
    function Code(): int {
      if BookNotFound? then 404 else 200
    }
  }

  /** Result of PUT /reservations/:reservation_id/status. */
  datatype StatusUpdateOutcome =
    | InvalidStatus
    | ReservationNotFound
    | StatusUpdated(reservationId: int, status: string)
  {
    /** The HTTP status code of the response. */
    function Code(): int {
      match this
      case InvalidStatus => 400
      case ReservationNotFound => 404
      case StatusUpdated(_, _) => 200
    }
  }

  /** Every book row keeps its available count between 0 and its total. */
  predicate BooksConsistent(books: map<int, Book>) {
    forall id :: id in books ==> Consistent(books[id].totalCopies, books[id].availableCopies)
  }

  /**
    The descriptive columns PUT /books/:book_id writes: the body's values as given, with
    no query fallback and no truthiness test, so a falsy value is written as it is and
    a missing one as `undefined`.
   */
  function DetailsFromBody(body: map<string, JsValue>): (d: BookDetails)
    ensures d.title == (if "title" in body then body["title"] else Undefined)
    ensures d.author == (if "author" in body then body["author"] else Undefined)
    ensures d.publisher == (if "publisher" in body then body["publisher"] else Undefined)
    ensures d.yearPublished == (if "year_published" in body then body["year_published"] else Undefined)
    ensures d.isbn == (if "isbn" in body then body["isbn"] else Undefined)
  {
    BookDetails(
      BodyField(body, "title"),
      BodyField(body, "author"),
      BodyField(body, "publisher"),
      BodyField(body, "year_published"),
      BodyField(body, "isbn"))
  }

  class Library {
    var books: map<int, Book>
    var reservations: map<int, Reservation>

    constructor (books0: map<int, Book>, reservations0: map<int, Reservation>)
      ensures books == books0 && reservations == reservations0
    {
      books := books0;
      reservations := reservations0;
    }

    /**
      PUT /books/:book_id with the request body and its `total_copies` already parsed.
      An unknown id answers 404 and writes nothing. Otherwise the stored counts are
      read, the available count reconciled, and the row overwritten with the body's
      columns and the new counts.
     */
    method UpdateBook(bookId: int, body: map<string, JsValue>, newTotal: int) returns (outcome: BookUpdateOutcome)
      modifies this
      ensures reservations == old(reservations)
      ensures bookId !in old(books) ==> outcome == BookNotFound && books == old(books)
      ensures bookId in old(books) ==>
                var b := old(books)[bookId];
                var available := ReconcileAvailable(b.totalCopies, b.availableCopies, newTotal);
                && outcome == BookUpdated(bookId, newTotal - b.totalCopies, available)
                && books == old(books)[bookId := Book(DetailsFromBody(body), newTotal, available)]
      ensures outcome.Code() == (if bookId in old(books) then 200 else 404)
      // only the addressed row changes
      ensures books.Keys == old(books).Keys
      ensures forall id :: id in old(books) && id != bookId ==> books[id] == old(books)[id]
      // the table invariant survives any update to a non-negative total
      ensures BooksConsistent(old(books)) && 0 <= newTotal ==> BooksConsistent(books)
      // the loans on the book are kept while the new total covers them
      ensures bookId in old(books) &&
              newTotal >= Borrowed(old(books)[bookId].totalCopies, old(books)[bookId].availableCopies) ==>
                Borrowed(books[bookId].totalCopies, books[bookId].availableCopies) ==
                Borrowed(old(books)[bookId].totalCopies, old(books)[bookId].availableCopies)
    {
      if bookId !in books {
        return BookNotFound;
      }
      var oldTotalCopies := books[bookId].totalCopies;
      var currentAvailableCopies := books[bookId].availableCopies;
      var copyDifference := newTotal - oldTotalCopies;
      var newAvailableCopies := ReconcileAvailable(oldTotalCopies, currentAvailableCopies, newTotal);
      books := books[bookId := Book(DetailsFromBody(body), newTotal, newAvailableCopies)];
      outcome := BookUpdated(bookId, copyDifference, newAvailableCopies);
    }

    /**
      PUT /reservations/:reservation_id/status with the body's `status` value. A status
      outside the allowed set answers 400 before any write; a valid status for an id no
      row matches answers 404; otherwise only that row's status is overwritten.
     */
    method UpdateReservationStatus(reservationId: int, status: JsValue) returns (outcome: StatusUpdateOutcome)
      modifies this
      ensures books == old(books)
      ensures ParseStatus(status).None? ==> outcome == InvalidStatus && reservations == old(reservations)
      ensures ParseStatus(status).Some? && reservationId !in old(reservations) ==>
                outcome == ReservationNotFound && reservations == old(reservations)
      ensures ParseStatus(status).Some? && reservationId in old(reservations) ==>
                var name := StatusName(ParseStatus(status).value);
                && outcome == StatusUpdated(reservationId, name)
                && reservations == old(reservations)[reservationId := old(reservations)[reservationId].(status := name)]
      ensures outcome.Code() == 200 <==> status.Str? && status.s in ValidStatuses && reservationId in old(reservations)
    {
      var parsed := ParseStatus(status);
      if parsed.None? {
        return InvalidStatus;
      }
      var name := StatusName(parsed.value);
      // UPDATE ... WHERE reservation_id = ?, then inspect the affected row count
      var affectedRows := 0;
      if reservationId in reservations {
        reservations := reservations[reservationId := reservations[reservationId].(status := name)];
        affectedRows := 1;
      }
      if affectedRows == 0 {
        return ReservationNotFound;
      }
      outcome := StatusUpdated(reservationId, name);
    }
  }
}
