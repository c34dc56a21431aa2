/**
 * The book store and the borrowing log. Each operation reads the whole list from its storage
 * key, changes it in memory and writes the whole list back; `LibraryStore` keeps the two keys as
 * fields. Ids and clock readings are parameters.
 */
module Library {
  import opened Wrappers
  import opened LibraryTypes
  import opened Seqs
  import opened Text

  /* ---------------------------------------------------------------------------------------- */
  /* Seed catalogue                                                                           */
  /* ---------------------------------------------------------------------------------------- */

  /** The `i`-th book of the seed catalogue. */
  function DefaultBook(i: nat): Book
    requires i < 4
  {
    match i
    case 0 =>
      Book("1", "The Great Gatsby", "F. Scott Fitzgerald", "Classic Literature", 1925, "9780743273565",
           ["American Literature", "Jazz Age", "Classic"],
           Some(("A masterpiece of " + "American literature " + "set in the Jazz " + "Age, exploring " + "themes of wealth, " + "love, and the " + "American Dream " + "through the eyes of " + "Nick Carraway.")),
           true, None, None, None)
    case 1 =>
      Book("2", ("To Kill a " + "Mockingbird"), "Harper Lee", "Classic Literature", 1960, "9780061120084",
           ["American Literature", "Social Justice", "Coming of Age"],
           Some(("A profound tale of " + "moral courage in " + "the American South, " + "told through the " + "perspective of " + "Scout Finch as her " + "father defends an " + "innocent Black man.")),
           // borrowed on 2024-08-01, UTC midnight
           false, Some("Sarah Johnson"), Some("2024-08-15"), Some(1722470400000))
    case 2 =>
      Book("3", "Dune", "Frank Herbert", "Science Fiction", 1965, "9780441172719",
           ["Space Opera", "Politics", "Ecology"],
           Some(("An epic science " + "fiction saga set on " + "the desert planet " + "Arrakis, following " + "Paul Atreides as he " + "navigates politics, " + "religion, and " + "ecology.")),
           true, None, None, None)
    case 3 =>
      Book("4", "Pride and Prejudice", "Jane Austen", "Romance", 1813, "9780141439518",
           ["British Literature", "Romance", "Social Commentary"],
           Some(("A witty and " + "romantic tale of " + "Elizabeth Bennet " + "and Mr. Darcy, " + "exploring themes of " + "love, class, and " + "social expectations " + "in Regency England.")),
           true, None, None, None)
  }

  /** The four books `getBooks` answers with while nothing is stored. */
  function DefaultBooks(): seq<Book>
  {
    seq(4, i requires 0 <= i < 4 => DefaultBook(i))
  }

  /** What `getBooks` returns: the stored list, or the seed catalogue when the key is absent. */
  function StoredOrDefault(stored: Option<seq<Book>>): seq<Book>
  {
    stored.GetOr(DefaultBooks())
  }

  /** The seed catalogue has four books with ids "1" to "4"; only "2" is on loan, and every book keeps the availability invariant. */
  lemma DefaultCatalogue()
    ensures |DefaultBooks()| == 4
    ensures [DefaultBooks()[0].id, DefaultBooks()[1].id, DefaultBooks()[2].id, DefaultBooks()[3].id] == ["1", "2", "3", "4"]
    ensures forall i :: 0 <= i < 4 ==> LoanConsistent(DefaultBooks()[i])
    ensures forall i :: 0 <= i < 4 ==> (DefaultBooks()[i].isAvailable <==> i != 1)
    ensures StoredOrDefault(None) == DefaultBooks()
  {
    var d := DefaultBooks();
    assert d[0] == DefaultBook(0) && d[1] == DefaultBook(1) && d[2] == DefaultBook(2) && d[3] == DefaultBook(3);
  }

  /* ---------------------------------------------------------------------------------------- */
  /* Merging partial updates                                                                  */
  /* ---------------------------------------------------------------------------------------- */

  /**
   * A `Partial<Book>`: `None` leaves a field alone, `Some(v)` overwrites it. The optional fields
   * take an inner `Option`, so that an update can also clear them (`borrower: undefined`).
   */
  datatype BookPatch = BookPatch(
    id: Option<string>,
    title: Option<string>,
    author: Option<string>,
    genre: Option<string>,
    year: Option<int>,
    isbn: Option<string>,
    tags: Option<seq<string>>,
    summary: Option<Option<string>>,
    isAvailable: Option<bool>,
    borrower: Option<Option<string>>,
    dueDate: Option<Option<string>>,
    borrowedDate: Option<Option<Instant>>)

  /** `{ ...b, ...p }`. */
  function ApplyPatch(b: Book, p: BookPatch): Book
  {
    Book(p.id.GetOr(b.id), p.title.GetOr(b.title), p.author.GetOr(b.author), p.genre.GetOr(b.genre),
         p.year.GetOr(b.year), p.isbn.GetOr(b.isbn), p.tags.GetOr(b.tags), p.summary.GetOr(b.summary),
         p.isAvailable.GetOr(b.isAvailable), p.borrower.GetOr(b.borrower), p.dueDate.GetOr(b.dueDate),
         p.borrowedDate.GetOr(b.borrowedDate))
  }

  /** The update `checkOutBook` applies to the book. */
  function CheckOutPatch(borrower: string, dueDate: string, now: Instant): BookPatch
  {
    BookPatch(None, None, None, None, None, None, None, None,
              Some(false), Some(Some(borrower)), Some(Some(dueDate)), Some(Some(now)))
  }

  /** The update `checkInBook` applies to the book. */
  function CheckInPatch(): BookPatch
  {
    BookPatch(None, None, None, None, None, None, None, None,
              Some(true), Some(None), Some(None), Some(None))
  }

  /** Checking a book out lends it to `borrower` and leaves its catalogue data alone, whatever state it was in. */
  lemma CheckOutLends(b: Book, borrower: string, dueDate: string, now: Instant)
    ensures var r := ApplyPatch(b, CheckOutPatch(borrower, dueDate, now));
      && !r.isAvailable && r.borrower == Some(borrower) && r.dueDate == Some(dueDate)
      && r.borrowedDate == Some(now) && LoanConsistent(r)
      && r.id == b.id && r.title == b.title && r.author == b.author && r.genre == b.genre
      && r.year == b.year && r.isbn == b.isbn && r.tags == b.tags && r.summary == b.summary
  {
  }

  /** Checking a book in makes it available with no loan data and leaves its catalogue data alone. */
  lemma CheckInReturns(b: Book)
    ensures var r := ApplyPatch(b, CheckInPatch());
      && r.isAvailable && LoanConsistent(r)
      && r.id == b.id && r.title == b.title && r.author == b.author && r.genre == b.genre
      && r.year == b.year && r.isbn == b.isbn && r.tags == b.tags && r.summary == b.summary
  {
  }

  /* ---------------------------------------------------------------------------------------- */
  /* List transformations behind the store operations                                         */
  /* ---------------------------------------------------------------------------------------- */

  /** Position `i` holds the first book with the id. */
  predicate FirstWithId(bs: seq<Book>, id: string, i: nat)
  {
    i < |bs| && bs[i].id == id && forall j :: 0 <= j < i ==> bs[j].id != id
  }

  /** `books.findIndex(book => book.id === id)`. */
  function FindBook(bs: seq<Book>, id: string): Option<nat>
  {
    FindIndex(bs, (b: Book) => b.id == id)
  }

  /**
   * The list `updateBook` saves: the patch merged into the first book with the id. `None` when
   * no book has the id, in which case nothing is saved.
   */
  function UpdatedBooks(bs: seq<Book>, id: string, p: BookPatch): (r: Option<seq<Book>>)
    ensures r.None? <==> forall i :: 0 <= i < |bs| ==> bs[i].id != id
    ensures r.Some? ==> |r.value| == |bs|
    ensures r.Some? ==> exists i: nat :: FirstWithId(bs, id, i) && r.value[i] == ApplyPatch(bs[i], p)
                                    && forall j :: 0 <= j < |bs| && j != i ==> r.value[j] == bs[j]
  {
    match FindBook(bs, id)
    case None => None
    case Some(i) =>
      assert FirstWithId(bs, id, i);
      Some(bs[i := ApplyPatch(bs[i], p)])
  }

  /** The list `deleteBook` computes: every book with the id dropped, the others in order. */
  function WithoutBook(bs: seq<Book>, id: string): (r: seq<Book>)
    ensures forall b :: b in r <==> b in bs && b.id != id
    ensures IsSubsequence(r, bs)
    ensures |r| == |bs| <==> forall i :: 0 <= i < |bs| ==> bs[i].id != id
  {
    var keep := (b: Book) => b.id != id;
    FilterLength(bs, keep);
    FilterIsSubsequence(bs, keep);
    Filter(bs, keep)
  }

  /** The borrowing record `checkOutBook` appends. */
  function OpenRecord(recordId: string, bookId: string, borrower: string, dueDate: string, now: Instant): BorrowingRecord
  {
    BorrowingRecord(recordId, bookId, borrower, now, dueDate, None)
  }

  /** The record is an open loan of the book. */
  predicate IsOpenLoanOf(r: BorrowingRecord, bookId: string)
  {
    r.bookId == bookId && r.returnedDate.None?
  }

  /**
   * The records after `checkInBook`: the first open loan of the book gets `returnedDate`; every
   * other record is unchanged, and nothing changes when the book has no open loan.
   */
  function ReturnFirstOpen(rs: seq<BorrowingRecord>, bookId: string, now: Instant): (r: seq<BorrowingRecord>)
    ensures |r| == |rs|
    ensures (forall k :: 0 <= k < |rs| ==> !IsOpenLoanOf(rs[k], bookId)) ==> r == rs
    ensures forall k :: 0 <= k < |rs| && r[k] != rs[k] ==>
      && IsOpenLoanOf(rs[k], bookId) && r[k] == rs[k].(returnedDate := Some(now))
      && (forall j :: 0 <= j < |rs| && j != k ==> r[j] == rs[j])
      && (forall j :: 0 <= j < k ==> !IsOpenLoanOf(rs[j], bookId))
    ensures forall k: nat :: IsFirst(rs, (x: BorrowingRecord) => IsOpenLoanOf(x, bookId), k) ==>
              r[k] == rs[k].(returnedDate := Some(now))
  {
    match FindIndex(rs, (x: BorrowingRecord) => IsOpenLoanOf(x, bookId))
    case None => rs
    case Some(k) => rs[k := rs[k].(returnedDate := Some(now))]
  }

  /** Checking a book out and then in again leaves the first book with that id available, with no loan data. */
  lemma CheckOutThenInFreesBook(bs: seq<Book>, bookId: string, borrower: string, dueDate: string, out: Instant)
    requires UpdatedBooks(bs, bookId, CheckOutPatch(borrower, dueDate, out)).Some?
    ensures var lent := UpdatedBooks(bs, bookId, CheckOutPatch(borrower, dueDate, out)).value;
      && UpdatedBooks(lent, bookId, CheckInPatch()).Some?
      && var returned := UpdatedBooks(lent, bookId, CheckInPatch()).value;
      && |returned| == |bs|
      && forall i: nat :: FirstWithId(bs, bookId, i) ==> returned[i].isAvailable && LoanConsistent(returned[i])
  {
    var p := CheckOutPatch(borrower, dueDate, out);
    var lent := UpdatedBooks(bs, bookId, p).value;
    var i := FindBook(bs, bookId).value;
    assert lent == bs[i := ApplyPatch(bs[i], p)];
    assert forall j :: 0 <= j < |lent| ==> lent[j].id == bs[j].id;
    assert FindBook(lent, bookId) == Some(i);
    var returned := UpdatedBooks(lent, bookId, CheckInPatch()).value;
    assert returned[i] == ApplyPatch(lent[i], CheckInPatch());
    forall i': nat | FirstWithId(bs, bookId, i')
      ensures returned[i'].isAvailable && LoanConsistent(returned[i'])
    {
      assert i' == i;
    }
  }

  /**
   * Checking a book out and then in again closes exactly one record: the first open loan of the
   * book, which is the record the check-out appended unless an older loan was still open.
   */
  lemma CheckOutThenInClosesOneRecord(rs: seq<BorrowingRecord>, bookId: string, borrower: string, dueDate: string,
                                      out: Instant, recordId: string, back: Instant)
    ensures var log := rs + [OpenRecord(recordId, bookId, borrower, dueDate, out)];
      var closed := ReturnFirstOpen(log, bookId, back);
      && |closed| == |log|
      && (exists k :: 0 <= k < |log| && IsOpenLoanOf(log[k], bookId) && closed[k] == log[k].(returnedDate := Some(back))
                      && forall j :: 0 <= j < |log| && j != k ==> closed[j] == log[j])
      && ((forall k :: 0 <= k < |rs| ==> !IsOpenLoanOf(rs[k], bookId)) ==> closed[|rs|].returnedDate == Some(back))
  {
    var log := rs + [OpenRecord(recordId, bookId, borrower, dueDate, out)];
    assert IsOpenLoanOf(log[|rs|], bookId);
    var closed := ReturnFirstOpen(log, bookId, back);
    var k0 := FindIndex(log, (r: BorrowingRecord) => IsOpenLoanOf(r, bookId)).value;
    assert closed[k0] == log[k0].(returnedDate := Some(back)) != log[k0];
    if forall k :: 0 <= k < |rs| ==> !IsOpenLoanOf(rs[k], bookId) {
      assert forall k :: 0 <= k < |rs| ==> !IsOpenLoanOf(log[k], bookId);
      assert k0 == |rs|;
    }
  }

  /* ---------------------------------------------------------------------------------------- */
  /* Search                                                                                   */
  /* ---------------------------------------------------------------------------------------- */

  /** The text condition of `searchBooks`: an empty query, or the lower-cased query inside the lower-cased title, author or a tag. */
  predicate MatchesQuery(b: Book, query: string)
  {
    var q := ToLower(query);
    query == "" || Contains(ToLower(b.title), q) || Contains(ToLower(b.author), q)
    || Any(b.tags, (t: string) => Contains(ToLower(t), q))
  }

  /** The genre condition of `searchBooks`: no genre (absent or empty), the wildcard "all", or an exact match. */
  predicate MatchesGenre(b: Book, genre: Option<string>)
  {
    genre.None? || genre.value == "" || genre.value == "all" || b.genre == genre.value
  }

  /** `searchBooks`: the books that meet both conditions, in catalogue order. */
  function SearchBooks(bs: seq<Book>, query: string, genre: Option<string>): (r: seq<Book>)
    ensures forall b :: b in r <==> b in bs && MatchesQuery(b, query) && MatchesGenre(b, genre)
    ensures IsSubsequence(r, bs)
  {
    var keep := (b: Book) => MatchesQuery(b, query) && MatchesGenre(b, genre);
    FilterIsSubsequence(bs, keep);
    Filter(bs, keep)
  }

  /** An empty query with the genre "all" (or none) returns the whole list unchanged and in order. */
  lemma SearchEverything(bs: seq<Book>, genre: Option<string>)
    requires genre == None || genre == Some("all")
    ensures SearchBooks(bs, "", genre) == bs
  {
    FilterKeepsAll(bs, (b: Book) => MatchesQuery(b, "") && MatchesGenre(b, genre));
  }

  /** The case of the query does not matter: searching for it and for its lower-cased form give the same books. */
  lemma SearchIgnoresQueryCase(bs: seq<Book>, query: string, genre: Option<string>)
    ensures SearchBooks(bs, query, genre) == SearchBooks(bs, ToLower(query), genre)
  {
    LowerIsIdempotent(query);
    FilterCongruent(bs, (b: Book) => MatchesQuery(b, query) && MatchesGenre(b, genre),
                    (b: Book) => MatchesQuery(b, ToLower(query)) && MatchesGenre(b, genre));
  }

  /** A query is matched case-insensitively as a substring: "dune" finds both "Dune" and "Dunetown". */
  lemma SearchIgnoresCase(dune: Book, dunetown: Book)
    requires dune.title == "Dune" && dunetown.title == "Dunetown"
    ensures SearchBooks([dune, dunetown], "dune", None) == [dune, dunetown]
  {
    TitleStartingWithQueryMatches(dune, "dune");
    TitleStartingWithQueryMatches(dunetown, "dune");
    FilterKeepsAll([dune, dunetown], (b: Book) => MatchesQuery(b, "dune") && MatchesGenre(b, None));
  }

  /** A book whose title starts with the query, ignoring case, matches the query. */
  lemma TitleStartingWithQueryMatches(b: Book, query: string)
    requires StartsWith(ToLower(b.title), ToLower(query))
    ensures MatchesQuery(b, query)
  {
    assert OccursAt(ToLower(b.title), ToLower(query), 0);
  }

  /** A book whose title, author and tags lack the query's first letter in either case is not found. */
  lemma SearchMissesAbsentLetter(bs: seq<Book>, query: string)
    requires query != [] && 'a' <= query[0] <= 'z'
    requires forall b :: b in bs ==> query[0] !in ToLower(b.title) && query[0] !in ToLower(b.author)
    requires forall b, t :: b in bs && t in b.tags ==> query[0] !in ToLower(t)
    ensures SearchBooks(bs, query, None) == []
  {
    forall b | b in bs ensures !MatchesQuery(b, query) {
      BookMissesAbsentLetter(b, query);
    }
  }

  /** One book without the query's first letter does not match the query. */
  lemma BookMissesAbsentLetter(b: Book, query: string)
    requires query != [] && 'a' <= query[0] <= 'z'
    requires query[0] !in ToLower(b.title) && query[0] !in ToLower(b.author)
    requires forall t :: t in b.tags ==> query[0] !in ToLower(t)
    ensures !MatchesQuery(b, query)
  {
    var q := ToLower(query);
    assert q[0] == query[0];
    if Contains(ToLower(b.title), q) { ContainsHead(ToLower(b.title), q); }
    if Contains(ToLower(b.author), q) { ContainsHead(ToLower(b.author), q); }
    forall t | t in b.tags ensures !Contains(ToLower(t), q) {
      if Contains(ToLower(t), q) { ContainsHead(ToLower(t), q); }
    }
  }

  /* ---------------------------------------------------------------------------------------- */
  /* Statistics                                                                               */
  /* ---------------------------------------------------------------------------------------- */

  /** The number of books of genre `g`. */
  function CountGenre(bs: seq<Book>, g: string): nat
  {
    if bs == [] then 0
    else CountGenre(bs[..|bs| - 1], g) + (if bs[|bs| - 1].genre == g then 1 else 0)
  }

  /** One step of the `reduce` that builds the genre histogram: bump the genre's entry, or add it with count 1. */
  function Bump(acc: seq<GenreCount>, g: string): seq<GenreCount>
  {
    match FindIndex(acc, (e: GenreCount) => e.genre == g)
    case None => acc + [GenreCount(g, 1)]
    case Some(k) => acc[k := acc[k].(count := acc[k].count + 1)]
  }

  /** Counting genres over a list with one more book. */
  lemma CountGenreAppend(bs: seq<Book>, b: Book, h: string)
    ensures CountGenre(bs + [b], h) == CountGenre(bs, h) + (if b.genre == h then 1 else 0)
  {
    assert (bs + [b])[..|bs + [b]| - 1] == bs;
  }

  /** The three facts that make `acc` the genre histogram of `bs`. */
  ghost predicate IsHistogram(bs: seq<Book>, acc: seq<GenreCount>)
  {
    && (forall k :: 0 <= k < |acc| ==> acc[k].count == CountGenre(bs, acc[k].genre) > 0)
    && (forall g :: CountGenre(bs, g) > 0 ==> exists k :: 0 <= k < |acc| && acc[k].genre == g)
    && (forall k, l :: 0 <= k < l < |acc| ==> acc[k].genre != acc[l].genre)
  }

  /** Bumping the genre of one more book turns the histogram of a list into the histogram of the longer list. */
  lemma BumpCounts(bs: seq<Book>, b: Book, acc: seq<GenreCount>)
    requires IsHistogram(bs, acc)
    ensures IsHistogram(bs + [b], Bump(acc, b.genre))
  {
    forall h ensures CountGenre(bs + [b], h) == CountGenre(bs, h) + (if b.genre == h then 1 else 0) {
      CountGenreAppend(bs, b, h);
    }
    match FindIndex(acc, (e: GenreCount) => e.genre == b.genre)
    case None => BumpNewGenre(bs, b, acc);
    case Some(k) => BumpKnownGenre(bs, b, acc, k);
  }

  /** A genre not yet in the histogram is appended with count one. */
  lemma BumpNewGenre(bs: seq<Book>, b: Book, acc: seq<GenreCount>)
    requires IsHistogram(bs, acc)
    requires forall h :: CountGenre(bs + [b], h) == CountGenre(bs, h) + (if b.genre == h then 1 else 0)
    requires forall k :: 0 <= k < |acc| ==> acc[k].genre != b.genre
    ensures IsHistogram(bs + [b], acc + [GenreCount(b.genre, 1)])
  {
    var r := acc + [GenreCount(b.genre, 1)];
    forall h | CountGenre(bs + [b], h) > 0 ensures exists l :: 0 <= l < |r| && r[l].genre == h {
      if h == b.genre {
        assert r[|acc|].genre == h;
      } else {
        var l :| 0 <= l < |acc| && acc[l].genre == h;
        assert r[l].genre == h;
      }
    }
  }

  /** A genre already at position `k` has its count there raised by one. */
  lemma BumpKnownGenre(bs: seq<Book>, b: Book, acc: seq<GenreCount>, k: nat)
    requires IsHistogram(bs, acc)
    requires forall h :: CountGenre(bs + [b], h) == CountGenre(bs, h) + (if b.genre == h then 1 else 0)
    requires k < |acc| && acc[k].genre == b.genre
    ensures IsHistogram(bs + [b], acc[k := acc[k].(count := acc[k].count + 1)])
  {
    var r := acc[k := acc[k].(count := acc[k].count + 1)];
    forall h | CountGenre(bs + [b], h) > 0 ensures exists l :: 0 <= l < |r| && r[l].genre == h {
      if h == b.genre {
        assert r[k].genre == h;
      } else {
        var l :| 0 <= l < |acc| && acc[l].genre == h;
        assert r[l].genre == h;
      }
    }
  }

  /**
   * The genre histogram as `Object.entries` lists it: one entry per genre in order of first
   * appearance, each with the number of books of that genre.
   */
  function GenreCounts(bs: seq<Book>): (r: seq<GenreCount>)
    ensures forall k :: 0 <= k < |r| ==> r[k].count == CountGenre(bs, r[k].genre) > 0
    ensures forall g :: CountGenre(bs, g) > 0 ==> exists k :: 0 <= k < |r| && r[k].genre == g
    ensures forall k, l :: 0 <= k < l < |r| ==> r[k].genre != r[l].genre
  {
    if bs == [] then []
    else
      var prefix := bs[..|bs| - 1];
      var acc := GenreCounts(prefix);
      BumpCounts(prefix, bs[|bs| - 1], acc);
      assert prefix + [bs[|bs| - 1]] == bs;
      Bump(acc, bs[|bs| - 1].genre)
  }

  /** The sort key of a histogram entry. */
  function CountOf(e: GenreCount): int
  {
    e.count
  }

  /** The sort key of a borrowing record. */
  function BorrowedAt(r: BorrowingRecord): int
  {
    r.borrowedDate
  }

  /** The genre of a histogram entry. */
  function GenreOf(e: GenreCount): string
  {
    e.genre
  }

  /** Sorting a histogram and cutting it keeps one entry per genre. */
  lemma TopGenresDistinct(counts: seq<GenreCount>)
    requires forall k, l :: 0 <= k < l < |counts| ==> counts[k].genre != counts[l].genre
    ensures forall i, j :: 0 <= i < j < |SliceTo(SortDesc(counts, CountOf), 5)| ==>
              SliceTo(SortDesc(counts, CountOf), 5)[i].genre != SliceTo(SortDesc(counts, CountOf), 5)[j].genre
  {
    assert DistinctBy(counts, GenreOf);
    SortDescDistinct(counts, CountOf, GenreOf);
    var sorted := SortDesc(counts, CountOf);
    var r := SliceTo(sorted, 5);
    assert forall i :: 0 <= i < |r| ==> r[i] == sorted[i];
  }

  /** Sorting a histogram and cutting it keeps each entry's true count. */
  lemma TopGenresCounted(bs: seq<Book>)
    ensures forall e :: e in SliceTo(SortDesc(GenreCounts(bs), CountOf), 5) ==> e.count == CountGenre(bs, e.genre) > 0
  {
    var counts := GenreCounts(bs);
    forall e | e in SliceTo(SortDesc(counts, CountOf), 5) ensures e.count == CountGenre(bs, e.genre) > 0 {
      assert e in multiset(counts);
    }
  }

  /** The `popularGenres` of the statistics: the histogram sorted by count, descending, cut to five entries. */
  function PopularGenres(bs: seq<Book>): (r: seq<GenreCount>)
    ensures |r| <= 5
    ensures forall i, j :: 0 <= i < j < |r| ==> r[i].count >= r[j].count
    ensures forall e :: e in r ==> e.count == CountGenre(bs, e.genre) > 0
    ensures forall i, j :: 0 <= i < j < |r| ==> r[i].genre != r[j].genre
  {
    var counts := GenreCounts(bs);
    SliceOfSorted(SortDesc(counts, CountOf), CountOf, 5);
    TopGenresDistinct(counts);
    TopGenresCounted(bs);
    SliceTo(SortDesc(counts, CountOf), 5)
  }

  /** The `recentBorrowings` of the statistics: the log sorted newest first, cut to five records. */
  function RecentBorrowings(rs: seq<BorrowingRecord>): (r: seq<BorrowingRecord>)
    ensures |r| <= 5
    ensures forall i, j :: 0 <= i < j < |r| ==> r[i].borrowedDate >= r[j].borrowedDate
    ensures forall x :: x in r ==> x in rs
    ensures multiset(r) <= multiset(rs)
    ensures |r| == if |rs| < 5 then |rs| else 5
  {
    var sorted := SortDesc(rs, BorrowedAt);
    SliceOfSorted(sorted, BorrowedAt, 5);
    var r := SliceTo(sorted, 5);
    forall x | x in r ensures x in rs {
      assert x in multiset(r);
    }
    r
  }

  /** `getLibraryStats` over a book list and a borrowing log. */
  function Stats(bs: seq<Book>, rs: seq<BorrowingRecord>): (st: LibraryStats)
    ensures st.totalBooks == |bs| == st.borrowedBooks + st.availableBooks
    ensures st.borrowedBooks == |Filter(bs, (b: Book) => !b.isAvailable)|
    ensures st.popularGenres == PopularGenres(bs) && st.recentBorrowings == RecentBorrowings(rs)
  {
    var borrowed := Filter(bs, (b: Book) => !b.isAvailable);
    var available := Filter(bs, (b: Book) => b.isAvailable);
    FilterSplitsLength(bs, (b: Book) => b.isAvailable, (b: Book) => !b.isAvailable);
    LibraryStats(|bs|, |borrowed|, |available|, PopularGenres(bs), RecentBorrowings(rs))
  }

  /** A genre left out of `popularGenres` is one that five listed genres match or beat. */
  lemma PopularGenresAreTheTopFive(bs: seq<Book>, g: string)
    requires CountGenre(bs, g) > 0
    requires forall e :: e in PopularGenres(bs) ==> e.genre != g
    ensures |PopularGenres(bs)| == 5
    ensures forall e :: e in PopularGenres(bs) ==> e.count >= CountGenre(bs, g)
  {
    var counts := GenreCounts(bs);
    var k :| 0 <= k < |counts| && counts[k].genre == g;
    var x := counts[k];
    assert x in multiset(counts);
    assert x !in SliceTo(SortDesc(counts, CountOf), 5);
    TopOfSorted(counts, CountOf, 5, x);
  }

  /** A record left out of `recentBorrowings` is one that five listed records match or beat in recency. */
  lemma RecentBorrowingsAreTheNewest(rs: seq<BorrowingRecord>, r: BorrowingRecord)
    requires r in rs && r !in RecentBorrowings(rs)
    ensures |RecentBorrowings(rs)| == 5
    ensures forall q :: q in RecentBorrowings(rs) ==> q.borrowedDate >= r.borrowedDate
  {
    assert r in multiset(rs);
    TopOfSorted(rs, BorrowedAt, 5, r);
  }

  /* ---------------------------------------------------------------------------------------- */
  /* The store                                                                                */
  /* ---------------------------------------------------------------------------------------- */

  /** The two storage keys of the library. */
  class LibraryStore {
    /** The list under 'library_books'; `None` while nothing has been stored. */
    var storedBooks: Option<seq<Book>>
    /** The list under 'library_borrowings'; an absent key reads as the empty list. */
    var borrowings: seq<BorrowingRecord>

    constructor ()
      ensures storedBooks == None && borrowings == []
    {
      storedBooks := None;
      borrowings := [];
    }

    /** `getBooks`: reading never writes the seed catalogue back. */
    function GetBooks(): seq<Book>
      reads this
    {
      StoredOrDefault(storedBooks)
    }

    /** `addBook`: appends the book under the fresh id, forced available. */
    method AddBook(data: Book, freshId: string) returns (added: Book)
      modifies this
      ensures added == data.(id := freshId, isAvailable := true)
      ensures storedBooks == Some(old(GetBooks()) + [added])
      ensures |GetBooks()| == |old(GetBooks())| + 1 && GetBooks()[..|old(GetBooks())|] == old(GetBooks())
      ensures borrowings == old(borrowings)
    {
      var books := GetBooks();
      added := data.(id := freshId, isAvailable := true);
      books := books + [added];
      storedBooks := Some(books);
    }

    /** `updateBook`: merges the patch into the first book with the id; `None`, and nothing saved, when there is none. */
    method UpdateBook(id: string, patch: BookPatch) returns (updated: Option<Book>)
      modifies this
      ensures match UpdatedBooks(old(GetBooks()), id, patch)
        case None => updated.None? && storedBooks == old(storedBooks)
        case Some(bs) => storedBooks == Some(bs) && updated.Some?
                         && exists i: nat :: FirstWithId(old(GetBooks()), id, i) && updated.value == bs[i]
      ensures borrowings == old(borrowings)
    {
      var books := GetBooks();
      var index := FindBook(books, id);
      if index.None? {
        return None;
      }
      var i := index.value;
      assert FirstWithId(books, id, i);
      books := books[i := ApplyPatch(books[i], patch)];
      storedBooks := Some(books);
      updated := Some(books[i]);
    }

    /** `deleteBook`: drops every book with the id; false, and nothing saved, when there is none. */
    method DeleteBook(id: string) returns (deleted: bool)
      modifies this
      ensures deleted <==> exists i :: 0 <= i < |old(GetBooks())| && old(GetBooks())[i].id == id
      ensures deleted ==> storedBooks == Some(WithoutBook(old(GetBooks()), id))
      ensures !deleted ==> storedBooks == old(storedBooks)
      ensures borrowings == old(borrowings)
    {
      var books := GetBooks();
      var filtered := WithoutBook(books, id);
      if |filtered| == |books| {
        return false;
      }
      storedBooks := Some(filtered);
      deleted := true;
    }

    /**
     * `checkOutBook`: lends the book and appends one open record. The book's availability is
     * not checked, so a second check-out overwrites the loan and opens another record.
     */
    method CheckOutBook(bookId: string, borrower: string, dueDate: string, now: Instant, recordId: string)
      returns (ok: bool)
      modifies this
      ensures ok <==> UpdatedBooks(old(GetBooks()), bookId, CheckOutPatch(borrower, dueDate, now)).Some?
      ensures ok ==> storedBooks == UpdatedBooks(old(GetBooks()), bookId, CheckOutPatch(borrower, dueDate, now))
      ensures ok ==> borrowings == old(borrowings) + [OpenRecord(recordId, bookId, borrower, dueDate, now)]
      ensures !ok ==> storedBooks == old(storedBooks) && borrowings == old(borrowings)
    {
      var book := UpdateBook(bookId, CheckOutPatch(borrower, dueDate, now));
      if book.Some? {
        var records := borrowings;
        records := records + [OpenRecord(recordId, bookId, borrower, dueDate, now)];
        borrowings := records;
        return true;
      }
      return false;
    }

    /**
     * `checkInBook`: makes the book available and closes its first open record; true whenever
     * the book exists, even if it had no open record.
     */
    method CheckInBook(bookId: string, now: Instant) returns (ok: bool)
      modifies this
      ensures ok <==> UpdatedBooks(old(GetBooks()), bookId, CheckInPatch()).Some?
      ensures ok ==> storedBooks == UpdatedBooks(old(GetBooks()), bookId, CheckInPatch())
      ensures ok ==> borrowings == ReturnFirstOpen(old(borrowings), bookId, now)
      ensures !ok ==> storedBooks == old(storedBooks) && borrowings == old(borrowings)
    {
      var book := UpdateBook(bookId, CheckInPatch());
      if book.Some? {
        var records := borrowings;
        var active := FindIndex(records, (r: BorrowingRecord) => IsOpenLoanOf(r, bookId));
        if active.Some? {
          var k := active.value;
          records := records[k := records[k].(returnedDate := Some(now))];
          borrowings := records;
        }
        return true;
      }
      return false;
    }

    /** `searchBooks` over the current list. */
    function Search(query: string, genre: Option<string>): seq<Book>
      reads this
    {
      SearchBooks(GetBooks(), query, genre)
    }

    /** `getLibraryStats` over the current lists. */
    function GetLibraryStats(): LibraryStats
      reads this
    {
      Stats(GetBooks(), borrowings)
    }
  }
}
