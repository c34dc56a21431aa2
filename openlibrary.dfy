/**
 * The Open Library adapter's deterministic parts: the genre normaliser, the conversion of a
 * search document into a book (with its random draws and clock reading as parameters), the
 * choice between converted documents and the fixed 45-book fallback catalogue, and the URL
 * builders.
 */
module OpenLibrary {
  import opened Wrappers
  import opened LibraryTypes
  import opened Text
  import opened JsObject
  import opened Seqs

  /* ---------------------------------------------------------------------------------------- */
  /* Genre normalisation                                                                      */
  /* ---------------------------------------------------------------------------------------- */

  /** The own entries of the genre table, keyed by lower-case, underscore-joined subject. */
  const GenreMap: map<string, string> := map[
    "fiction" := "Fiction",
    "science_fiction" := "Science Fiction",
    "fantasy" := "Fantasy",
    "mystery" := "Mystery",
    "romance" := "Romance",
    "thriller" := "Thriller",
    "biography" := "Biography",
    "history" := "History",
    "science" := "Science",
    "philosophy" := "Philosophy",
    "literature" := "Classic Literature",
    "horror" := "Horror",
    "adventure" := "Adventure"
  ]

  /** `s.replace(/\s+/g, '_')`: every maximal run of whitespace becomes one underscore. */
  function CollapseWhitespace(s: string): (r: string)
    ensures |r| <= |s|
    decreases |s|
  {
    if s == [] then []
    else if IsWhitespace(s[0]) then "_" + CollapseWhitespace(s[WhitespacePrefixLength(s)..])
    else [s[0]] + CollapseWhitespace(s[1..])
  }

  /** No whitespace is left after collapsing. */
  lemma {:induction false} CollapseLeavesNoWhitespace(s: string)
    ensures forall i :: 0 <= i < |CollapseWhitespace(s)| ==> !IsWhitespace(CollapseWhitespace(s)[i])
    decreases |s|
  {
    if s != [] {
      if IsWhitespace(s[0]) {
        CollapseLeavesNoWhitespace(s[WhitespacePrefixLength(s)..]);
      } else {
        CollapseLeavesNoWhitespace(s[1..]);
      }
    }
  }

  /** A word without whitespace passes through unchanged. */
  lemma {:induction false} CollapseWord(w: string, rest: string)
    requires forall i :: 0 <= i < |w| ==> !IsWhitespace(w[i])
    ensures CollapseWhitespace(w + rest) == w + CollapseWhitespace(rest)
  {
    if w != [] {
      CollapseWord(w[1..], rest);
      var s := w + rest;
      assert s[0] == w[0] && !IsWhitespace(s[0]);
      assert s[1..] == w[1..] + rest;
      assert w == [w[0]] + w[1..];
    } else {
      assert w + rest == rest;
    }
  }

  /** A whole run of whitespace becomes a single underscore. */
  lemma CollapseRun(run: string, rest: string)
    requires run != [] && forall i :: 0 <= i < |run| ==> IsWhitespace(run[i])
    requires rest == [] || !IsWhitespace(rest[0])
    ensures CollapseWhitespace(run + rest) == "_" + CollapseWhitespace(rest)
  {
    var s := run + rest;
    assert forall i :: 0 <= i < |run| ==> IsWhitespace(s[i]);
    assert |run| < |s| ==> s[|run|] == rest[0];
    assert WhitespacePrefixLength(s) == |run|;
    assert s[|run|..] == rest;
  }

  /** A run of whitespace followed by a word becomes an underscore followed by the word. */
  lemma CollapseRunThenWord(run: string, w: string)
    requires run != [] && forall i :: 0 <= i < |run| ==> IsWhitespace(run[i])
    requires forall i :: 0 <= i < |w| ==> !IsWhitespace(w[i])
    ensures CollapseWhitespace(run + w) == "_" + w
  {
    CollapseRun(run, w);
    CollapseWord(w, []);
    assert w + [] == w;
  }

  /** Two words separated by a run of whitespace are joined by one underscore. */
  lemma CollapseTwoWords(a: string, run: string, b: string)
    requires forall i :: 0 <= i < |a| ==> !IsWhitespace(a[i])
    requires forall i :: 0 <= i < |b| ==> !IsWhitespace(b[i])
    requires run != [] && forall i :: 0 <= i < |run| ==> IsWhitespace(run[i])
    ensures CollapseWhitespace(a + run + b) == a + "_" + b
  {
    assert a + run + b == a + (run + b);
    CollapseWord(a, run + b);
    CollapseRunThenWord(run, b);
  }

  /** The table key `normalizeGenre` looks up. */
  function GenreKey(genre: string): string
  {
    CollapseWhitespace(ToLower(genre))
  }

  /** What the table lookup yields as written: an inherited member is truthy and is returned itself. */
  datatype GenreValue = Name(name: string) | ObjectMember(member: string)

  /** `normalizeGenre` as written: `genreMap[key] || 'Fiction'` on a plain object. */
  function NormalizeGenreAsWritten(genre: string): (r: GenreValue)
    ensures r.ObjectMember? <==> GenreKey(genre) !in GenreMap && GenreKey(genre) in PrototypeMembers
    ensures r.ObjectMember? ==> r.member == GenreKey(genre)
    ensures GenreKey(genre) in GenreMap ==> r == Name(GenreMap[GenreKey(genre)])
  {
    match LookupKey(GenreMap, GenreKey(genre))
    case Own(g) => Name(g)
    case Inherited(m) => ObjectMember(m)
    case Missing => Name("Fiction")
  }

  /** A word of lower-case letters is its own key. */
  lemma GenreKeyOfLowerWord(w: string)
    requires forall i :: 0 <= i < |w| ==> 'a' <= w[i] <= 'z'
    ensures GenreKey(w) == w
  {
    GenreKeyOfWord(w);
    assert ToLower(w) == w;
  }

  /** A subject "constructor" is normalised to the `Object` constructor instead of a genre name. */
  lemma ConstructorSubjectEscapes(subject: string)
    requires subject == "constructor"
    ensures NormalizeGenreAsWritten(subject) == ObjectMember("constructor")
  {
    ConstructorIsLowerWord(subject);
    GenreKeyOfLowerWord(subject);
    ConstructorIsNoGenreKey();
  }

  /** "constructor" is all lower-case letters. */
  lemma ConstructorIsLowerWord(subject: string)
    requires subject == "constructor"
    ensures forall i :: 0 <= i < |subject| ==> 'a' <= subject[i] <= 'z'
  {
  }

  /** The table has no own entry "constructor". */
  lemma ConstructorIsNoGenreKey()
    ensures "constructor" !in GenreMap && "constructor" in PrototypeMembers
  {
  }

  /** `normalizeGenre` with own-key lookup: the table's genre for the key, `Fiction` for anything else. */
  function NormalizeGenre(genre: string): (r: string)
    ensures r in GenreMap.Values
    ensures GenreKey(genre) in GenreMap ==> r == GenreMap[GenreKey(genre)]
    ensures GenreKey(genre) !in GenreMap ==> r == "Fiction"
    ensures GenreKey(genre) !in PrototypeMembers ==> NormalizeGenreAsWritten(genre) == Name(r)
  {
    var key := GenreKey(genre);
    assert GenreMap["fiction"] == "Fiction";
    if key in GenreMap then GenreMap[key] else "Fiction"
  }

  /** The key of a single word is the word in lower case. */
  lemma GenreKeyOfWord(w: string)
    requires forall i :: 0 <= i < |w| ==> !IsWhitespace(w[i])
    ensures GenreKey(w) == ToLower(w)
  {
    var k := ToLower(w);
    assert forall i :: 0 <= i < |k| ==> !IsWhitespace(k[i]) by {
      forall i | 0 <= i < |k| ensures !IsWhitespace(k[i]) {
        assert k[i] == LowerChar(w[i]);
      }
    }
    CollapseWord(k, []);
    assert k + [] == k;
  }

  /** The key of two words separated by whitespace is the two words in lower case joined by `_`. */
  lemma GenreKeyOfTwoWords(a: string, run: string, b: string)
    requires forall i :: 0 <= i < |a| ==> !IsWhitespace(a[i])
    requires forall i :: 0 <= i < |b| ==> !IsWhitespace(b[i])
    requires run != [] && forall i :: 0 <= i < |run| ==> IsWhitespace(run[i])
    ensures GenreKey(a + run + b) == ToLower(a) + "_" + ToLower(b)
  {
    var la, lb := ToLower(a), ToLower(b);
    assert forall i :: 0 <= i < |la| ==> !IsWhitespace(la[i]) by {
      forall i | 0 <= i < |la| ensures !IsWhitespace(la[i]) {
        assert la[i] == LowerChar(a[i]);
      }
    }
    assert forall i :: 0 <= i < |lb| ==> !IsWhitespace(lb[i]) by {
      forall i | 0 <= i < |lb| ensures !IsWhitespace(lb[i]) {
        assert lb[i] == LowerChar(b[i]);
      }
    }
    assert ToLower(a + run + b) == la + run + lb;
    CollapseTwoWords(la, run, lb);
  }

  /** Case and runs of whitespace do not matter: "Science  Fiction" is the table's "science_fiction". */
  lemma NormalizeSpacedSubject()
    ensures NormalizeGenre("Science" + "  " + "Fiction") == "Science Fiction"
  {
    GenreKeyOfTwoWords("Science", "  ", "Fiction");
    assert ToLower("Science") + "_" + ToLower("Fiction") == "science_fiction";
  }

  /** "Classic Literature" is the table's genre for "literature". */
  lemma ClassicLiteratureIsAGenre()
    ensures "Classic Literature" in GenreMap.Values
  {
    assert GenreMap["literature"] == "Classic Literature";
  }

  /** "Classic Literature" is not a table key once lower-cased and joined, so it normalises to "Fiction". */
  lemma NormalizeClassicLiterature()
    ensures NormalizeGenre("Classic" + " " + "Literature") == "Fiction"
  {
    GenreKeyOfTwoWords("Classic", " ", "Literature");
    assert ToLower("Classic") + "_" + ToLower("Literature") !in GenreMap;
  }

  /** Normalising is not idempotent: some genre the table yields does not normalise to itself. */
  lemma NormalizeIsNotIdempotent()
    ensures exists g :: g in GenreMap.Values && NormalizeGenre(g) != g
  {
    ClassicLiteratureIsAGenre();
    NormalizeClassicLiterature();
    var g := "Classic" + " " + "Literature";
    assert g == "Classic Literature";
    assert g in GenreMap.Values && NormalizeGenre(g) != g;
  }

  /* ---------------------------------------------------------------------------------------- */
  /* Converting a search document                                                             */
  /* ---------------------------------------------------------------------------------------- */

  /** The fields of an Open Library search document the adapter reads. */
  datatype Doc = Doc(
    key: string,
    title: Option<string>,
    authorName: Option<seq<string>>,
    firstPublishYear: Option<int>,
    isbn: Option<seq<string>>,
    subject: Option<seq<string>>,
    coverId: Option<nat>)

  /** The random draws `convertToBook` makes for one document, and the due date it formats. */
  datatype Draws = Draws(
    genreIndex: nat,
    isbnNumber: nat,
    available: bool,
    lent: bool,
    dueDate: Option<string>,
    dated: bool)

  /** A converted book together with the cover URL it carries beside the book fields. */
  datatype Converted = Converted(book: Book, coverUrl: string)

  /** The genre list a random genre is drawn from. */
  const RandomGenres: seq<string> := [
    "Fiction", "Science Fiction", "Fantasy", "Mystery", "Romance",
    "Thriller", "Biography", "History", "Science", "Philosophy",
    "Classic Literature", "Contemporary Fiction", "Horror", "Adventure"]

  /** The position of the first occurrence of `sub` in `s`, searching from `from`. */
  function FirstOccurrence(s: string, sub: string, from: nat): (r: Option<nat>)
    ensures r.Some? ==> from <= r.value && OccursAt(s, sub, r.value)
                        && forall j :: from <= j < r.value ==> !OccursAt(s, sub, j)
    ensures r.None? ==> forall j :: from <= j ==> !OccursAt(s, sub, j)
    decreases |s| - from
  {
    if from + |sub| > |s| then None
    else if OccursAt(s, sub, from) then Some(from)
    else FirstOccurrence(s, sub, from + 1)
  }

  /** `s.replace(sub, '')` with a string pattern: removes the first occurrence only. */
  function RemoveFirst(s: string, sub: string): (r: string)
    ensures (forall j: nat :: !OccursAt(s, sub, j)) ==> r == s
    ensures forall k: nat :: OccursAt(s, sub, k) && (forall j: nat :: j < k ==> !OccursAt(s, sub, j)) ==>
              r == s[..k] + s[k + |sub|..]
  {
    match FirstOccurrence(s, sub, 0)
    case Some(k) => s[..k] + s[k + |sub|..]
    case None => s
  }

  /** A work key loses its "/works/" prefix. */
  lemma WorkKeyIsStripped(id: string)
    ensures RemoveFirst("/works/" + id, "/works/") == id
  {
    assert OccursAt("/works/" + id, "/works/", 0);
  }

  /** The cover of a document: the medium cover image for a non-zero cover id, the placeholder otherwise. */
  function DocCover(coverId: Option<nat>): string
  {
    if coverId.Some? && coverId.value != 0 then CoverUrl(Decimal(coverId.value), Some(M)) else "/placeholder.svg"
  }

  /** `o || fallback` on an optional string: the string when it is present and non-empty. */
  function OrElse(o: Option<string>, fallback: string): (r: string)
    ensures o.Some? && o.value != "" ==> r == o.value
    ensures o.None? || o.value == "" ==> r == fallback
  {
    if o.Some? && o.value != "" then o.value else fallback
  }

  /** `list?.[0]`: the first entry of a list that is present and non-empty. */
  function FirstEntry(list: Option<seq<string>>): (r: Option<string>)
    ensures r.Some? <==> list.Some? && list.value != []
    ensures r.Some? ==> r.value == list.value[0]
  {
    if list.Some? && list.value != [] then Some(list.value[0]) else None
  }

  /** `subject?.slice(0, 3) || ['fiction', 'literature']`: a present list, even an empty one, is truthy. */
  function SubjectTags(subject: Option<seq<string>>): (tags: seq<string>)
    ensures subject.None? ==> tags == ["fiction", "literature"]
    ensures subject.Some? ==> tags <= subject.value && |tags| == if |subject.value| < 3 then |subject.value| else 3
  {
    if subject.None? then ["fiction", "literature"] else SliceTo(subject.value, 3)
  }

  /** The id of a converted document: its key without "/works/", or a clock- and index-based id when that is empty. */
  function DocId(key: string, index: nat, now: nat): (r: string)
    ensures r != ""
    ensures RemoveFirst(key, "/works/") != "" ==> r == RemoveFirst(key, "/works/")
  {
    var workId := RemoveFirst(key, "/works/");
    if workId != "" then workId else "ol-" + Decimal(now) + "-" + Decimal(index)
  }

  /** The generated description of a converted document. */
  function DocSummary(genre: string): string
  {
    "A fascinating " + ToLower(genre) + (" work that explores themes of human " + "nature, society, and the complexities " + "of modern life. This book has " + "captivated readers with its compelling " + "narrative and thought-provoking " + "insights.")
  }

  /**
   * `convertToBook`: the document's fields where they are present and truthy, the fixed defaults
   * otherwise; the genre is normalised from the first subject, or from a randomly drawn genre.
   */
  function ConvertToBook(d: Doc, index: nat, draws: Draws, now: nat): (r: Converted)
    requires draws.genreIndex < |RandomGenres|
    ensures r.book.genre in GenreMap.Values
    ensures r.book.id != ""
  {
    var randomGenre := OrElse(FirstEntry(d.subject), RandomGenres[draws.genreIndex]);
    var book := Book(
      DocId(d.key, index, now),
      OrElse(d.title, "Unknown Title"),
      OrElse(FirstEntry(d.authorName), "Unknown Author"),
      NormalizeGenre(randomGenre),
      if d.firstPublishYear.Some? && d.firstPublishYear.value != 0 then d.firstPublishYear.value else 2020,
      OrElse(FirstEntry(d.isbn), "978" + Decimal(draws.isbnNumber)),
      SubjectTags(d.subject),
      Some(DocSummary(randomGenre)),
      draws.available,
      if draws.lent then Some("John Doe") else None,
      draws.dueDate,
      if draws.dated then Some(now) else None);
    Converted(book, DocCover(d.coverId))
  }

  /** Present, truthy fields of the document are kept. */
  lemma ConvertKeepsFields(d: Doc, index: nat, draws: Draws, now: nat)
    requires draws.genreIndex < |RandomGenres|
    ensures var b := ConvertToBook(d, index, draws, now).book;
      && (d.title.Some? && d.title.value != "" ==> b.title == d.title.value)
      && (FirstEntry(d.authorName).Some? && FirstEntry(d.authorName).value != "" ==> b.author == d.authorName.value[0])
      && (d.firstPublishYear.Some? && d.firstPublishYear.value != 0 ==> b.year == d.firstPublishYear.value)
      && (d.subject.Some? ==> b.tags <= d.subject.value)
      && (d.subject.Some? && d.subject.value != [] && d.subject.value[0] != "" ==> b.genre == NormalizeGenre(d.subject.value[0]))
  {
  }

  /** Missing or falsy fields get the fixed defaults. */
  lemma ConvertDefaults(d: Doc, index: nat, draws: Draws, now: nat)
    requires draws.genreIndex < |RandomGenres|
    ensures var b := ConvertToBook(d, index, draws, now).book;
      && (d.title.None? || d.title.value == "" ==> b.title == "Unknown Title")
      && (FirstEntry(d.authorName).None? || FirstEntry(d.authorName).value == "" ==> b.author == "Unknown Author")
      && (d.firstPublishYear.None? || d.firstPublishYear.value == 0 ==> b.year == 2020)
      && (d.subject.None? ==> b.tags == ["fiction", "literature"])
  {
  }

  /** A converted book satisfies the availability invariant only when the independent draws agree. */
  lemma ConvertedLoanNeedsAgreeingDraws(d: Doc, index: nat, draws: Draws, now: nat)
    requires draws.genreIndex < |RandomGenres|
    ensures LoanConsistent(ConvertToBook(d, index, draws, now).book) <==>
              if draws.available then !draws.lent && draws.dueDate.None? && !draws.dated
              else draws.lent && draws.dueDate.Some? && draws.dated
  {
  }

  /* ---------------------------------------------------------------------------------------- */
  /* Choosing between the remote results and the fallback catalogue                           */
  /* ---------------------------------------------------------------------------------------- */

  /** Every document converted at its index, with its own draws. */
  function ConvertAll(docs: seq<Doc>, draws: seq<Draws>, now: nat): (r: seq<Converted>)
    requires |draws| == |docs|
    requires forall i :: 0 <= i < |draws| ==> draws[i].genreIndex < |RandomGenres|
    ensures |r| == |docs|
    ensures forall i :: 0 <= i < |docs| ==> r[i] == ConvertToBook(docs[i], i, draws[i], now)
  {
    seq(|docs|, i requires 0 <= i < |docs| => ConvertToBook(docs[i], i, draws[i], now))
  }

  /** The fallback catalogue as it is returned, every book with the placeholder cover. */
  function FallbackResults(): (r: seq<Converted>)
    ensures |r| == 45
    ensures forall i :: 0 <= i < 45 ==> r[i] == Converted(FallbackBook(i), "/placeholder.svg")
  {
    seq(45, i requires 0 <= i < 45 => Converted(FallbackBook(i), "/placeholder.svg"))
  }

  /**
   * `searchBooks` once the request has finished: `None` stands for a failed request or response,
   * which yields the fallback catalogue; a response's documents are all converted, even when there
   * are none.
   */
  function SearchResults(docs: Option<seq<Doc>>, draws: seq<Draws>, now: nat): (r: seq<Converted>)
    requires docs.Some? ==> |draws| == |docs.value|
    requires forall i :: 0 <= i < |draws| ==> draws[i].genreIndex < |RandomGenres|
    ensures docs.None? ==> r == FallbackResults()
    ensures docs.Some? ==> r == ConvertAll(docs.value, draws, now)
  {
    if docs.None? then FallbackResults() else ConvertAll(docs.value, draws, now)
  }

  /**
   * `getPopularBooks` once the request has finished: the fallback catalogue for a failed request
   * and for a response without documents, the converted documents otherwise.
   */
  function PopularResults(docs: Option<seq<Doc>>, draws: seq<Draws>, now: nat): (r: seq<Converted>)
    requires docs.Some? ==> |draws| == |docs.value|
    requires forall i :: 0 <= i < |draws| ==> draws[i].genreIndex < |RandomGenres|
    ensures r != []
    ensures docs.None? || docs.value == [] ==> r == FallbackResults()
    ensures docs.Some? && docs.value != [] ==> r == ConvertAll(docs.value, draws, now)
  {
    if docs.None? || docs.value == [] then FallbackResults() else ConvertAll(docs.value, draws, now)
  }

  /** `getPopularBooks` never comes back empty, and whatever it returns from the catalogue is the whole catalogue. */
  lemma PopularNeverEmpty(docs: Option<seq<Doc>>, draws: seq<Draws>, now: nat)
    requires docs.Some? ==> |draws| == |docs.value|
    requires forall i :: 0 <= i < |draws| ==> draws[i].genreIndex < |RandomGenres|
    ensures |PopularResults(docs, draws, now)| >= 1
    ensures docs.None? || docs.value == [] ==> |PopularResults(docs, draws, now)| == 45
  {
  }

  /* ---------------------------------------------------------------------------------------- */
  /* The fallback catalogue                                                                   */
  /* ---------------------------------------------------------------------------------------- */

  /** The id of the `i`-th fallback book, counting from one. */
  function FallbackId(i: nat): string
  {
    "fallback-" + Decimal(i + 1)
  }

  /** Fallback ids are pairwise distinct. */
  lemma {:induction false} FallbackIdsDistinct(i: nat, j: nat)
    requires FallbackId(i) == FallbackId(j)
    ensures i == j
  {
    var p := "fallback-";
    assert FallbackId(i)[|p|..] == Decimal(i + 1);
    assert FallbackId(j)[|p|..] == Decimal(j + 1);
    DecimalInjective(i + 1, j + 1);
  }

  /** The first and the last fallback ids, as listed. */
  lemma FallbackIdRange()
    ensures FallbackId(0) == "fallback-1" && FallbackId(44) == "fallback-45"
  {
    assert Decimal(45) == Decimal(4) + [DigitChar(5)];
  }

  /** The positions (from zero) of the fallback books that are lent out. */
  const LentIndices: set<nat> := {1, 6, 12, 19, 28, 32, 37, 42}

  /** The `i`-th book of the fallback catalogue. */
  function FallbackBook(i: nat): (r: Book)
    requires i < 45
    ensures r.id == FallbackId(i) && LoanConsistent(r) && (r.isAvailable <==> i !in LentIndices)
  {
    if i < 5 then FallbackBook1To5(i)
    else if i < 10 then FallbackBook6To10(i)
    else if i < 15 then FallbackBook11To15(i)
    else if i < 20 then FallbackBook16To20(i)
    else if i < 25 then FallbackBook21To25(i)
    else if i < 30 then FallbackBook26To30(i)
    else if i < 35 then FallbackBook31To35(i)
    else if i < 40 then FallbackBook36To40(i)
    else FallbackBook41To45(i)
  }

  /** `getFallbackBooks`: the 45 catalogue books in order. */
  function FallbackBooks(): (r: seq<Book>)
    ensures |r| == 45
    ensures forall i :: 0 <= i < 45 ==> r[i] == FallbackBook(i)
  {
    seq(45, i requires 0 <= i < 45 => FallbackBook(i))
  }

  /** The catalogue has 45 books, pairwise distinct ids, and every book obeys the availability invariant. */
  lemma FallbackCatalogue()
    ensures |FallbackBooks()| == 45
    ensures forall i, j :: 0 <= i < j < |FallbackBooks()| ==> FallbackBooks()[i].id != FallbackBooks()[j].id
    ensures forall b :: b in FallbackBooks() ==> LoanConsistent(b)
  {
    var bs := FallbackBooks();
    forall i, j | 0 <= i < j < |bs| ensures bs[i].id != bs[j].id {
      if bs[i].id == bs[j].id {
        FallbackIdsDistinct(i, j);
      }
    }
  }

  /** Titles are not unique: books 29 and 32 are both "Atomic Habits". */
  lemma FallbackTitlesRepeat()
    ensures FallbackBooks()[28].title == FallbackBooks()[31].title == "Atomic Habits"
    ensures FallbackBooks()[28] != FallbackBooks()[31]
  {
  }

  /** Exactly the books 2, 7, 13, 20, 29, 33, 38 and 43 are lent out. */
  lemma FallbackLoans()
    ensures forall i :: 0 <= i < 45 ==> (!FallbackBooks()[i].isAvailable <==> i in LentIndices)
  {
  }

  /* ---------------------------------------------------------------------------------------- */
  /* URLs                                                                                     */
  /* ---------------------------------------------------------------------------------------- */

  /** The site the adapter talks to. */
  const BaseUrl := "https://openlibrary.org"

  /** The cover image service. */
  const CoverHost := "https://covers.openlibrary.org/b/id/"

  /** The sizes `getCoverUrl` accepts: small, medium and large. */
  datatype CoverSize = S | M | L

  /** The letter of a size in the image's file name. */
  function SizeLetter(size: CoverSize): (c: char)
    ensures c in "SML"
  {
    match size
    case S => 'S'
    case M => 'M'
    case L => 'L'
  }

  /**
   * `getCoverUrl`: the cover image of the given size, medium when no size is given. The URL reads
   * back as the host, the id, a hyphen, the size letter and ".jpg".
   */
  function CoverUrl(bookId: string, size: Option<CoverSize>): (r: string)
    ensures StartsWith(r, CoverHost)
    ensures |r| == |CoverHost| + |bookId| + 6
    ensures r[|CoverHost|..|CoverHost| + |bookId|] == bookId
    ensures r[|CoverHost| + |bookId|] == '-'
    ensures r[|CoverHost| + |bookId| + 1] == SizeLetter(size.GetOr(M))
    ensures r[|r| - 4..] == ".jpg"
  {
    var r := CoverHost + bookId + "-" + [SizeLetter(size.GetOr(M))] + ".jpg";
    assert r[|CoverHost|..|CoverHost| + |bookId|] == bookId;
    r
  }

  /** Distinct ids or sizes give distinct cover URLs, and leaving the size out is asking for the medium one. */
  lemma CoverUrlInjective(a: string, s: Option<CoverSize>, b: string, t: Option<CoverSize>)
    requires CoverUrl(a, s) == CoverUrl(b, t)
    ensures a == b && s.GetOr(M) == t.GetOr(M)
  {
    var r := CoverUrl(a, s);
    assert |a| == |b|;
    assert a == r[|CoverHost|..|CoverHost| + |a|] == b;
  }

  /** `getBookUrl`: the work's page on the site. */
  function BookUrl(bookKey: string): (r: string)
    ensures StartsWith(r, BaseUrl) && r[|BaseUrl|..] == bookKey
  {
    BaseUrl + bookKey
  }

  /** Fallback books 1 to 5. */
  function FallbackBook1To5(i: nat): (r: Book)
    requires 0 <= i < 5
    ensures r.id == FallbackId(i) && LoanConsistent(r) && (r.isAvailable <==> i !in LentIndices)
  {
    match i
    case 0 =>
      Book(FallbackId(i), "The Great Gatsby", "F. Scott Fitzgerald", "Classic Literature", 1925, "9780743273565",
        ["American Literature", "Jazz Age", "Classic"],
        Some(("A masterpiece of " + "American literature " + "set in the Jazz " + "Age, exploring " + "themes of wealth, " + "love, and the " + "American Dream.")),
        true, None, None, None)
    case 1 =>
      Book(FallbackId(i), ("To Kill a " + "Mockingbird"), "Harper Lee", "Classic Literature", 1960, "9780061120084",
        ["American Literature", "Social Justice"],
        Some(("A profound tale of " + "moral courage in " + "the American South " + "through Scout " + "Finch's perspective.")),
        false, Some("Sarah Johnson"), Some("2024-08-15"), Some(1722470400000))
    case 2 =>
      Book(FallbackId(i), "Dune", "Frank Herbert", "Science Fiction", 1965, "9780441172719",
        ["Space Opera", "Politics", "Ecology"],
        Some(("An epic science " + "fiction saga set on " + "the desert planet " + "Arrakis.")),
        true, None, None, None)
    case 3 =>
      Book(FallbackId(i), "1984", "George Orwell", "Dystopian Fiction", 1949, "9780452284234",
        ["Dystopian", "Political", "Classic"],
        Some(("A chilling " + "depiction of a " + "totalitarian " + "society under " + "constant " + "surveillance.")),
        true, None, None, None)
    case 4 =>
      Book(FallbackId(i), "Pride and Prejudice", "Jane Austen", "Romance", 1813, "9780141439518",
        ["Romance", "British Literature", "Classic"],
        Some(("A witty tale of " + "love and society in " + "Regency England.")),
        true, None, None, None)
  }

  /** Fallback books 6 to 10. */
  function FallbackBook6To10(i: nat): (r: Book)
    requires 5 <= i < 10
    ensures r.id == FallbackId(i) && LoanConsistent(r) && (r.isAvailable <==> i !in LentIndices)
  {
    match i
    case 5 =>
      Book(FallbackId(i), ("The Lord of the " + "Rings"), "J.R.R. Tolkien", "Fantasy", 1954, "9780544003415",
        ["Fantasy", "Adventure", "Epic"],
        Some(("The epic fantasy " + "adventure of " + "hobbits, wizards, " + "and the fate of " + "Middle-earth.")),
        true, None, None, None)
    case 6 =>
      Book(FallbackId(i), ("Harry Potter and " + "the Philosopher's " + "Stone"), "J.K. Rowling", "Fantasy", 1997, "9780747532699",
        ["Magic", "Young Adult", "Adventure"],
        Some(("A young wizard " + "discovers his " + "magical heritage " + "and begins his " + "journey at Hogwarts.")),
        false, Some("Mike Wilson"), Some("2024-08-20"), Some(1722902400000))
    case 7 =>
      Book(FallbackId(i), ("The Catcher in the " + "Rye"), "J.D. Salinger", "Coming of Age", 1951, "9780316769174",
        ["Coming of Age", "American Literature"],
        Some(("A teenage " + "protagonist's " + "journey through New " + "York City and " + "adolescent " + "alienation.")),
        true, None, None, None)
    case 8 =>
      Book(FallbackId(i), "The Hobbit", "J.R.R. Tolkien", "Fantasy", 1937, "9780547928227",
        ["Fantasy", "Adventure", "Children"],
        Some(("Bilbo Baggins' " + "unexpected " + "adventure with " + "dwarves and a " + "dragon.")),
        true, None, None, None)
    case 9 =>
      Book(FallbackId(i), "Brave New World", "Aldous Huxley", "Science Fiction", 1932, "9780060850524",
        ["Dystopian", "Science Fiction", "Social Commentary"],
        Some(("A disturbing vision " + "of a future society " + "obsessed with " + "pleasure and " + "control.")),
        true, None, None, None)
  }

  /** Fallback books 11 to 15. */
  function FallbackBook11To15(i: nat): (r: Book)
    requires 10 <= i < 15
    ensures r.id == FallbackId(i) && LoanConsistent(r) && (r.isAvailable <==> i !in LentIndices)
  {
    match i
    case 10 =>
      Book(FallbackId(i), ("The Chronicles of " + "Narnia"), "C.S. Lewis", "Fantasy", 1950, "9780066238500",
        ["Fantasy", "Children", "Adventure"],
        Some(("Children discover a " + "magical world " + "through an old " + "wardrobe.")),
        true, None, None, None)
    case 11 =>
      Book(FallbackId(i), "Foundation", "Isaac Asimov", "Science Fiction", 1951, "9780553293357",
        ["Science Fiction", "Space Opera"],
        Some(("A mathematician " + "develops a science " + "to predict the " + "future of human " + "civilization.")),
        true, None, None, None)
    case 12 =>
      Book(FallbackId(i), ("The Hitchhiker's " + "Guide to the Galaxy"), "Douglas Adams", "Science Fiction", 1979, "9780345391803",
        ["Humor", "Science Fiction", "Comedy"],
        Some(("A humorous science " + "fiction adventure " + "across the galaxy.")),
        false, Some("Anna Davis"), Some("2024-08-25"), Some(1723334400000))
    case 13 =>
      Book(FallbackId(i), "Jane Eyre", "Charlotte Bront\U{00C3}\U{00AB}", "Gothic Romance", 1847, "9780142437209",
        ["Gothic", "Romance", "Classic"],
        Some(("An orphaned " + "governess finds " + "love and " + "independence in " + "Victorian England.")),
        true, None, None, None)
    case 14 =>
      Book(FallbackId(i), "Moby Dick", "Herman Melville", "Adventure", 1851, "9780142437247",
        ["Adventure", "Classic", "Sea"],
        Some(("Captain Ahab's " + "obsessive quest for " + "the white whale.")),
        true, None, None, None)
  }

  /** Fallback books 16 to 20. */
  function FallbackBook16To20(i: nat): (r: Book)
    requires 15 <= i < 20
    ensures r.id == FallbackId(i) && LoanConsistent(r) && (r.isAvailable <==> i !in LentIndices)
  {
    match i
    case 15 =>
      Book(FallbackId(i), ("The Picture of " + "Dorian Gray"), "Oscar Wilde", "Gothic Fiction", 1890, "9780141442464",
        ["Gothic", "Philosophy", "Classic"],
        Some(("A young man's " + "portrait ages while " + "he remains " + "eternally youthful.")),
        true, None, None, None)
    case 16 =>
      Book(FallbackId(i), "Fahrenheit 451", "Ray Bradbury", "Science Fiction", 1953, "9781451673319",
        ["Dystopian", "Censorship", "Science Fiction"],
        Some(("A fireman burns " + "books in a society " + "where reading is " + "forbidden.")),
        true, None, None, None)
    case 17 =>
      Book(FallbackId(i), "The Handmaid's Tale", "Margaret Atwood", "Dystopian Fiction", 1985, "9780385490818",
        ["Dystopian", "Feminism", "Science Fiction"],
        Some(("A woman's struggle " + "for survival in a " + "totalitarian " + "theocracy.")),
        true, None, None, None)
    case 18 =>
      Book(FallbackId(i), "The Martian", "Andy Weir", "Science Fiction", 2011, "9780553418026",
        ["Space", "Survival", "Humor"],
        Some(("An astronaut " + "stranded on Mars " + "uses science and " + "wit to survive.")),
        true, None, None, None)
    case 19 =>
      Book(FallbackId(i), "Gone Girl", "Gillian Flynn", "Thriller", 2012, "9780307588364",
        ["Thriller", "Mystery", "Psychological"],
        Some(("A marriage goes " + "dangerously wrong " + "when a wife " + "disappears.")),
        false, Some("Tom Brown"), Some("2024-08-18"), Some(1722729600000))
  }

  /** Fallback books 21 to 25. */
  function FallbackBook21To25(i: nat): (r: Book)
    requires 20 <= i < 25
    ensures r.id == FallbackId(i) && LoanConsistent(r) && (r.isAvailable <==> i !in LentIndices)
  {
    match i
    case 20 =>
      Book(FallbackId(i), ("The Girl with the " + "Dragon Tattoo"), "Stieg Larsson", "Mystery", 2005, "9780307454546",
        ["Mystery", "Crime", "Thriller"],
        Some(("A journalist and " + "hacker investigate " + "a wealthy family's " + "dark secrets.")),
        true, None, None, None)
    case 21 =>
      Book(FallbackId(i), "The Hunger Games", "Suzanne Collins", "Young Adult", 2008, "9780439023528",
        ["Dystopian", "Young Adult", "Action"],
        Some(("A teenager fights " + "for survival in a " + "deadly televised " + "competition.")),
        true, None, None, None)
    case 22 =>
      Book(FallbackId(i), "Life of Pi", "Yann Martel", "Adventure", 2001, "9780156027328",
        ["Adventure", "Survival", "Philosophy"],
        Some(("A young man " + "survives 227 days " + "at sea with a " + "Bengal tiger.")),
        true, None, None, None)
    case 23 =>
      Book(FallbackId(i), "The Kite Runner", "Khaled Hosseini", "Historical Fiction", 2003, "9781594631931",
        ["Historical", "Friendship", "Afghanistan"],
        Some(("A story of " + "friendship, guilt, " + "and redemption set " + "in Afghanistan.")),
        true, None, None, None)
    case 24 =>
      Book(FallbackId(i), "The Book Thief", "Markus Zusak", "Historical Fiction", 2005, "9780375842207",
        ["Historical", "World War II", "Young Adult"],
        Some(("Death narrates the " + "story of a girl who " + "steals books in " + "Nazi Germany.")),
        true, None, None, None)
  }

  /** Fallback books 26 to 30. */
  function FallbackBook26To30(i: nat): (r: Book)
    requires 25 <= i < 30
    ensures r.id == FallbackId(i) && LoanConsistent(r) && (r.isAvailable <==> i !in LentIndices)
  {
    match i
    case 25 =>
      Book(FallbackId(i), "The Alchemist", "Paulo Coelho", "Philosophy", 1988, "9780062315007",
        ["Philosophy", "Adventure", "Inspiration"],
        Some(("A shepherd boy's " + "journey to find his " + "personal legend.")),
        true, None, None, None)
    case 26 =>
      Book(FallbackId(i), "Educated", "Tara Westover", "Memoir", 2018, "9780399590504",
        ["Memoir", "Education", "Family"],
        Some(("A memoir about " + "education's " + "transformative " + "power despite a " + "survivalist " + "upbringing.")),
        true, None, None, None)
    case 27 =>
      Book(FallbackId(i), "Sapiens", "Yuval Noah Harari", "History", 2011, "9780062316097",
        ["History", "Anthropology", "Science"],
        Some(("A brief history of " + "humankind from the " + "Stone Age to the " + "present.")),
        true, None, None, None)
    case 28 =>
      Book(FallbackId(i), "Atomic Habits", "James Clear", "Self-Help", 2018, "9780735211292",
        ["Self-Help", "Psychology", "Productivity"],
        Some(("How tiny changes " + "can make a " + "remarkable " + "difference in your " + "life.")),
        false, Some("Lisa Chen"), Some("2024-08-22"), Some(1723075200000))
    case 29 =>
      Book(FallbackId(i), ("Where the Crawdads " + "Sing"), "Delia Owens", "Mystery", 2018, "9780735219090",
        ["Mystery", "Nature", "Coming of Age"],
        Some(("A mystery about a " + "young woman who " + "raised herself in " + "the marshes.")),
        true, None, None, None)
  }

  /** Fallback books 31 to 35. */
  function FallbackBook31To35(i: nat): (r: Book)
    requires 30 <= i < 35
    ensures r.id == FallbackId(i) && LoanConsistent(r) && (r.isAvailable <==> i !in LentIndices)
  {
    match i
    case 30 =>
      Book(FallbackId(i), ("The Seven Husbands " + "of Evelyn Hugo"), "Taylor Jenkins Reid", "Historical Fiction", 2017, "9781501161933",
        ["Hollywood", "LGBTQ+", "Secrets"],
        Some(("A reclusive " + "Hollywood icon " + "reveals her secrets " + "to an unknown " + "journalist.")),
        true, None, None, None)
    case 31 =>
      Book(FallbackId(i), "Atomic Habits", "James Clear", "Self-Help", 2018, "9780735211292",
        ["Productivity", "Psychology", "Personal Development"],
        Some(("A guide to building " + "good habits and " + "breaking bad ones.")),
        true, None, None, None)
    case 32 =>
      Book(FallbackId(i), "The Silent Patient", "Alex Michaelides", ("Psychological " + "Thriller"), 2019, "9781250301697",
        ["Thriller", "Psychology", "Mystery"],
        Some(("A woman refuses to " + "speak after " + "murdering her " + "husband.")),
        false, Some("David Kim"), Some("2024-08-20"), Some(1722902400000))
    case 33 =>
      Book(FallbackId(i), "Circe", "Madeline Miller", "Mythology", 2018, "9780316556347",
        ["Greek Mythology", "Fantasy", "Feminism"],
        Some(("The story of Circe, " + "a goddess of magic " + "in Greek mythology.")),
        true, None, None, None)
    case 34 =>
      Book(FallbackId(i), "The Midnight Library", "Matt Haig", "Literary Fiction", 2020, "9780525559474",
        ["Philosophy", "Life Choices", "Self-Discovery"],
        Some(("A library between " + "life and death " + "where every book is " + "a different life.")),
        true, None, None, None)
  }

  /** Fallback books 36 to 40. */
  function FallbackBook36To40(i: nat): (r: Book)
    requires 35 <= i < 40
    ensures r.id == FallbackId(i) && LoanConsistent(r) && (r.isAvailable <==> i !in LentIndices)
  {
    match i
    case 35 =>
      Book(FallbackId(i), "Project Hail Mary", "Andy Weir", "Science Fiction", 2021, "9780593135204",
        ["Space", "Science", "Humor"],
        Some(("A lone astronaut " + "must save humanity " + "from extinction.")),
        true, None, None, None)
    case 36 =>
      Book(FallbackId(i), "The Song of Achilles", "Madeline Miller", "Historical Fiction", 2011, "9780062060624",
        ["Greek Mythology", "LGBTQ+", "War"],
        Some(("The love story " + "between Achilles " + "and Patroclus " + "during the Trojan " + "War.")),
        true, None, None, None)
    case 37 =>
      Book(FallbackId(i), "Klara and the Sun", "Kazuo Ishiguro", "Literary Fiction", 2021, "9780593318171",
        ["AI", "Coming of Age", "Philosophy"],
        Some(("An artificial " + "friend observes and " + "learns about human " + "nature.")),
        false, Some("Maria Rodriguez"), Some("2024-08-25"), Some(1723334400000))
    case 38 =>
      Book(FallbackId(i), ("The Invisible Life " + "of Addie LaRue"), "V.E. Schwab", "Fantasy", 2020, "9780765387561",
        ["Magic", "Immortality", "Memory"],
        Some(("A woman cursed to " + "be forgotten by " + "everyone she meets.")),
        true, None, None, None)
    case 39 =>
      Book(FallbackId(i), "Normal People", "Sally Rooney", "Literary Fiction", 2018, "9781984822178",
        ["Relationships", "Coming of Age", "Ireland"],
        Some(("The complex " + "relationship " + "between two Irish " + "teenagers.")),
        true, None, None, None)
  }

  /** Fallback books 41 to 45. */
  function FallbackBook41To45(i: nat): (r: Book)
    requires 40 <= i < 45
    ensures r.id == FallbackId(i) && LoanConsistent(r) && (r.isAvailable <==> i !in LentIndices)
  {
    match i
    case 40 =>
      Book(FallbackId(i), "The Vanishing Half", "Brit Bennett", "Literary Fiction", 2020, "9780525536291",
        ["Race", "Identity", "Family"],
        Some(("Twin sisters who " + "run away from home " + "and live very " + "different lives.")),
        true, None, None, None)
    case 41 =>
      Book(FallbackId(i), "Such a Fun Age", "Kiley Reid", "Contemporary Fiction", 2019, "9780525541905",
        ["Race", "Class", "Relationships"],
        Some(("A young babysitter " + "navigates an " + "uncomfortable " + "accusation.")),
        true, None, None, None)
    case 42 =>
      Book(FallbackId(i), "The Guest List", "Lucy Foley", "Mystery", 2020, "9780062868930",
        ["Wedding", "Secrets", "Island"],
        Some(("A wedding on a " + "remote island goes " + "terribly wrong.")),
        false, Some("James Wilson"), Some("2024-08-18"), Some(1722729600000))
    case 43 =>
      Book(FallbackId(i), ("The Thursday Murder " + "Club"), "Richard Osman", "Cozy Mystery", 2020, "9781984880567",
        ["Elderly", "Murder", "Friendship"],
        Some(("Four retirees meet " + "weekly to " + "investigate cold " + "cases.")),
        true, None, None, None)
    case 44 =>
      Book(FallbackId(i), ("The Ten Thousand " + "Doors of January"), "Alix E. Harrow", "Fantasy", 2019, "9780316421997",
        ["Portal Fantasy", "Magic", "Adventure"],
        Some(("A young woman " + "discovers doors to " + "other worlds.")),
        true, None, None, None)
  }
}
