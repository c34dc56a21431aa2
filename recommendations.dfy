/**
 * The derived views of the recommendation service: rule-based recommendations from a fixed
 * pool, the top-genre shares of a collection, the template summaries, and the parsing of the
 * free-text answer of the language model into library insights.
 */
module Recommendations {
  import opened Wrappers
  import opened LibraryTypes
  import opened Seqs
  import opened Text
  import opened JsObject
  import Library

  /* ---------------------------------------------------------------------------------------- */
  /* Rule-based recommendations                                                               */
  /* ---------------------------------------------------------------------------------------- */

  /** The `i`-th book of the recommendation pool, in the order the pool lists them. */
  function PoolBook(i: nat): Book
    requires i < 6
  {
    match i
    case 0 =>
      Book("rec-1", ("The Seven Husbands " + "of Evelyn Hugo"), "Taylor Jenkins Reid", "Fiction", 2017, "9781501161933",
           ["romance", "hollywood", "lgbtq"],
           Some(("A reclusive " + "Hollywood icon " + "finally tells her " + "story to a young " + "journalist.")), true, None, None, None)
    case 1 =>
      Book("rec-2", ("Where the Crawdads " + "Sing"), "Delia Owens", "Fiction", 2018, "9780735219090",
           ["mystery", "nature", "coming of age"],
           Some(("A mystery about a " + "young woman who " + "raised herself in " + "the marshes of " + "North Carolina.")), true, None, None, None)
    case 2 =>
      Book("rec-3", "The Martian", "Andy Weir", "Science Fiction", 2011, "9780553418026",
           ["space", "survival", "humor"],
           Some(("An astronaut " + "stranded on Mars " + "must use his " + "ingenuity to " + "survive.")), true, None, None, None)
    case 3 =>
      Book("rec-4", "Klara and the Sun", "Kazuo Ishiguro", "Science Fiction", 2021, "9780571364909",
           ["ai", "love", "philosophy"],
           Some(("An artificial " + "friend observes the " + "world with " + "extraordinary " + "perception.")), true, None, None, None)
    case 4 =>
      Book("rec-5", "The Name of the Wind", "Patrick Rothfuss", "Fantasy", 2007, "9780756404079",
           ["magic", "music", "adventure"],
           Some(("A legendary figure " + "tells his own story " + "of love, loss, and " + "magic.")), true, None, None, None)
    case 5 =>
      Book("rec-6", "The Fifth Season", "N.K. Jemisin", "Fantasy", 2015, "9780316229296",
           ["dystopian", "magic", "award-winning"],
           Some(("A world of " + "devastating " + "earthquakes and " + "supernatural powers.")), true, None, None, None)
  }

  /** The keys of the pool, in insertion order. */
  const PoolGenres: seq<string> := ["Fiction", "Science Fiction", "Fantasy"]

  /** `recommendationPool[genre]` for an own key: two books of that genre. */
  function PoolList(genre: string): (r: Option<seq<Book>>)
    ensures r.Some? <==> genre in PoolGenres
    ensures r.Some? ==> |r.value| == 2 && forall b :: b in r.value ==> b.genre == genre
  {
    if genre == "Fiction" then Some([PoolBook(0), PoolBook(1)])
    else if genre == "Science Fiction" then Some([PoolBook(2), PoolBook(3)])
    else if genre == "Fantasy" then Some([PoolBook(4), PoolBook(5)])
    else None
  }

  /** `Object.values(recommendationPool).flat()`: every pool list, in key order. */
  function FullPool(): (r: seq<Book>)
    ensures |r| == 6
    ensures forall b :: b in r ==> b.genre in PoolGenres
  {
    [PoolBook(0), PoolBook(1), PoolBook(2), PoolBook(3), PoolBook(4), PoolBook(5)]
  }

  /** The whole pool is the pool lists of the keys, concatenated in key order. */
  lemma FullPoolInKeyOrder()
    ensures FullPool() == PoolList(PoolGenres[0]).value + PoolList(PoolGenres[1]).value + PoolList(PoolGenres[2]).value
  {
    PoolListOfKey(0);
    PoolListOfKey(1);
    PoolListOfKey(2);
  }

  /** The list of the `k`-th key holds the pool books `2k` and `2k + 1`. */
  lemma PoolListOfKey(k: nat)
    requires k < 3
    ensures PoolList(PoolGenres[k]) == Some([PoolBook(2 * k), PoolBook(2 * k + 1)])
  {
    if k == 2 {
      assert "Fantasy"[1] != "Fiction"[1];
    }
  }

  /** `targetBook?.genre || genre`: the target's genre unless there is no target or its genre is empty. */
  function TargetGenre(targetBook: Option<Book>, genre: Option<string>): (r: Option<string>)
    ensures targetBook.Some? && targetBook.value.genre != "" ==> r == Some(targetBook.value.genre)
    ensures targetBook.None? || targetBook.value.genre == "" ==> r == genre
  {
    if targetBook.Some? && targetBook.value.genre != "" then Some(targetBook.value.genre) else genre
  }

  /** The candidates: the pool list of a truthy target genre that is a pool key, otherwise the whole pool. */
  function Candidates(targetBook: Option<Book>, genre: Option<string>): (r: seq<Book>)
    ensures match TargetGenre(targetBook, genre)
      case Some(g) => g in PoolGenres ==> r == PoolList(g).value
      case None => r == FullPool()
    ensures (TargetGenre(targetBook, genre).None? || TargetGenre(targetBook, genre).value !in PoolGenres) ==> r == FullPool()
  {
    match TargetGenre(targetBook, genre)
    case Some(g) => if g != "" && PoolList(g).Some? then PoolList(g).value else FullPool()
    case None => FullPool()
  }

  /** `existingTitles.has(b.title.toLowerCase())`: the collection holds a book with the same title, ignoring case. */
  predicate TitleTaken(currentBooks: seq<Book>, b: Book)
  {
    exists c :: c in currentBooks && ToLower(c.title) == ToLower(b.title)
  }

  /** The candidates whose title the collection does not already hold, in candidate order. */
  function UntakenCandidates(currentBooks: seq<Book>, targetBook: Option<Book>, genre: Option<string>): (r: seq<Book>)
    ensures forall b :: b in r <==> b in Candidates(targetBook, genre) && !TitleTaken(currentBooks, b)
    ensures IsSubsequence(r, Candidates(targetBook, genre))
  {
    var existingTitles := set c | c in currentBooks :: ToLower(c.title);
    var candidates := Candidates(targetBook, genre);
    var untaken := (b: Book) => ToLower(b.title) !in existingTitles;
    FilterIsSubsequence(candidates, untaken);
    Filter(candidates, untaken)
  }

  /**
   * `getRuleBasedRecommendations`: the untaken candidates cut by `slice(0, limit)` with a default
   * limit of 5, so a negative limit drops entries from the end.
   */
  function RuleBasedRecommendations(currentBooks: seq<Book>, targetBook: Option<Book>, genre: Option<string>, limit: Option<int>)
    : (r: seq<Book>)
    ensures forall b :: b in r ==> b in Candidates(targetBook, genre) && !TitleTaken(currentBooks, b)
    ensures IsSubsequence(r, Candidates(targetBook, genre))
    ensures r <= UntakenCandidates(currentBooks, targetBook, genre)
    ensures limit.None? ==> |r| == if |UntakenCandidates(currentBooks, targetBook, genre)| < 5 then |UntakenCandidates(currentBooks, targetBook, genre)| else 5
    ensures limit.Some? && limit.value >= 0 ==>
              |r| == if |UntakenCandidates(currentBooks, targetBook, genre)| < limit.value then |UntakenCandidates(currentBooks, targetBook, genre)| else limit.value
    ensures limit.Some? && limit.value < 0 ==>
              |r| == if |UntakenCandidates(currentBooks, targetBook, genre)| + limit.value > 0 then |UntakenCandidates(currentBooks, targetBook, genre)| + limit.value else 0
    ensures limit.None? ==> |r| <= 5
    ensures limit.Some? && limit.value >= 0 ==> |r| <= limit.value
  {
    var kept := UntakenCandidates(currentBooks, targetBook, genre);
    var r := SliceTo(kept, limit.GetOr(5));
    PrefixIsSubsequence(kept, |r|);
    SubsequenceTrans(r, kept, Candidates(targetBook, genre));
    r
  }

  /** A selection shorter than its limit holds every untaken candidate. */
  lemma ShortSelectionIsComplete(currentBooks: seq<Book>, targetBook: Option<Book>, genre: Option<string>, limit: Option<int>)
    requires limit.None? || limit.value >= 0
    requires |RuleBasedRecommendations(currentBooks, targetBook, genre, limit)| < limit.GetOr(5)
    ensures forall b :: b in Candidates(targetBook, genre) && !TitleTaken(currentBooks, b) ==>
              b in RuleBasedRecommendations(currentBooks, targetBook, genre, limit)
  {
    var kept := UntakenCandidates(currentBooks, targetBook, genre);
    assert RuleBasedRecommendations(currentBooks, targetBook, genre, limit) == kept;
  }

  /** A target genre that is a pool key gives only books of that genre. */
  lemma RecommendationsKeepGenre(currentBooks: seq<Book>, targetBook: Option<Book>, genre: Option<string>, limit: Option<int>)
    requires TargetGenre(targetBook, genre).Some? && TargetGenre(targetBook, genre).value in PoolGenres
    ensures forall b :: b in RuleBasedRecommendations(currentBooks, targetBook, genre, limit) ==>
              b.genre == TargetGenre(targetBook, genre).value
  {
  }

  /** An empty collection holds no title, so every candidate is untaken. */
  lemma EmptyCollectionTakesNothing(targetBook: Option<Book>, genre: Option<string>)
    ensures UntakenCandidates([], targetBook, genre) == Candidates(targetBook, genre)
  {
    var existingTitles: set<string> := set c: Book | c in [] :: ToLower(c.title);
    assert existingTitles == {};
    FilterKeepsAll(Candidates(targetBook, genre), (b: Book) => ToLower(b.title) !in existingTitles);
  }

  /** With an empty collection and no target, genre or limit, the first five pool books are recommended. */
  lemma {:induction false} DefaultRecommendations()
    ensures RuleBasedRecommendations([], None, None, None) == FullPool()[..5]
  {
    EmptyCollectionTakesNothing(None, None);
  }

  /** `generateBookRecommendations`: the rule-based selection whether or not an API key is configured. */
  function GenerateBookRecommendations(currentBooks: seq<Book>, targetBook: Option<Book>, genre: Option<string>,
                                       limit: Option<int>, apiKey: Option<string>): (r: seq<Book>)
    ensures r == RuleBasedRecommendations(currentBooks, targetBook, genre, limit)
  {
    if apiKey.None? then RuleBasedRecommendations(currentBooks, targetBook, genre, limit)
    else RuleBasedRecommendations(currentBooks, targetBook, genre, limit)
  }

  /* ---------------------------------------------------------------------------------------- */
  /* Top genres                                                                               */
  /* ---------------------------------------------------------------------------------------- */

  /** An entry of `topGenres`. */
  datatype GenreShare = GenreShare(genre: string, count: nat, percentage: int)

  /** The quotient of a natural number by a positive one brackets it from below. */
  lemma DivBounds(q: nat, d: nat)
    requires d > 0
    ensures (q / d) * d <= q < (q / d) * d + d
  {
    assert q == (q / d) * d + q % d;
  }

  /** Multiplying by a positive number keeps a strict order. */
  lemma MulCancel(a: int, b: int, d: nat)
    requires d > 0 && a * d < b * d
    ensures a < b
  {
  }

  /** `Math.round(count / total * 100)`, computed exactly: the nearest integer, halves rounded up. */
  function Percentage(count: nat, total: nat): (p: nat)
    ensures total > 0 ==> 200 * count - total < 2 * p * total <= 200 * count + total
    ensures count <= total ==> p <= 100
  {
    if total == 0 then 0
    else
      var d := 2 * total;
      var q := 200 * count + total;
      var p := q / d;
      DivBounds(q, d);
      assert 2 * p * total == p * d;
      assert count <= total ==> p <= 100 by {
        if count <= total {
          assert q < 101 * d;
          MulCancel(p, 101, d);
        }
      }
      p
  }

  /** The sort key of a share. */
  function ShareCount(s: GenreShare): int
  {
    s.count
  }

  /** The histogram entry of a share. */
  function CountPart(s: GenreShare): GenreCount
  {
    GenreCount(s.genre, s.count)
  }

  /** The genre of a share. */
  function ShareGenre(s: GenreShare): string
  {
    s.genre
  }

  /** Sorting the shares and cutting them keeps one share per genre. */
  lemma TopSharesDistinct(shares: seq<GenreShare>)
    requires forall k, l :: 0 <= k < l < |shares| ==> shares[k].genre != shares[l].genre
    ensures forall i, j :: 0 <= i < j < |SliceTo(SortDesc(shares, ShareCount), 5)| ==>
              SliceTo(SortDesc(shares, ShareCount), 5)[i].genre != SliceTo(SortDesc(shares, ShareCount), 5)[j].genre
  {
    assert DistinctBy(shares, ShareGenre);
    SortDescDistinct(shares, ShareCount, ShareGenre);
    var sorted := SortDesc(shares, ShareCount);
    var r := SliceTo(sorted, 5);
    assert forall i :: 0 <= i < |r| ==> r[i] == sorted[i];
  }

  /** The genre histogram with each count's share of the collection. */
  function Shares(bs: seq<Book>): (r: seq<GenreShare>)
    ensures forall s :: s in r ==> s.count == Library.CountGenre(bs, s.genre) > 0 && s.percentage == Percentage(s.count, |bs|)
    ensures forall k, l :: 0 <= k < l < |r| ==> r[k].genre != r[l].genre
  {
    var counts := Library.GenreCounts(bs);
    var r := Map(counts, (e: GenreCount) => GenreShare(e.genre, e.count, Percentage(e.count, |bs|)));
    assert forall k :: 0 <= k < |r| ==> r[k].genre == counts[k].genre && r[k].count == counts[k].count;
    r
  }

  /** Sorting the shares and cutting them keeps each share's true count and percentage. */
  lemma TopSharesCounted(bs: seq<Book>)
    ensures forall s :: s in SliceTo(SortDesc(Shares(bs), ShareCount), 5) ==>
              s.count == Library.CountGenre(bs, s.genre) > 0 && s.percentage == Percentage(s.count, |bs|)
  {
    var shares := Shares(bs);
    forall s | s in SliceTo(SortDesc(shares, ShareCount), 5)
      ensures s.count == Library.CountGenre(bs, s.genre) > 0 && s.percentage == Percentage(s.count, |bs|)
    {
      assert s in multiset(shares);
    }
  }

  /**
   * `topGenres` in `generateLibraryInsights`: the genre histogram with each count's share of the
   * collection, sorted by count, descending, cut to five entries.
   */
  function TopGenres(bs: seq<Book>): (r: seq<GenreShare>)
    ensures |r| <= 5
    ensures forall i, j :: 0 <= i < j < |r| ==> r[i].count >= r[j].count
    ensures forall s :: s in r ==> s.count == Library.CountGenre(bs, s.genre) > 0 && s.percentage == Percentage(s.count, |bs|)
    ensures forall i, j :: 0 <= i < j < |r| ==> r[i].genre != r[j].genre
  {
    var shares := Shares(bs);
    SliceOfSorted(SortDesc(shares, ShareCount), ShareCount, 5);
    TopSharesDistinct(shares);
    TopSharesCounted(bs);
    SliceTo(SortDesc(shares, ShareCount), 5)
  }

  /** The top genres are the popular genres of the library statistics, each with its percentage. */
  lemma {:induction false} TopGenresArePopularGenres(bs: seq<Book>)
    ensures Map(TopGenres(bs), CountPart) == Library.PopularGenres(bs)
  {
    var counts := Library.GenreCounts(bs);
    var f := (e: GenreCount) => GenreShare(e.genre, e.count, Percentage(e.count, |bs|));
    assert Shares(bs) == Map(counts, f);
    MapSortDesc(counts, f, Library.CountOf, ShareCount);
    var top := SliceTo(SortDesc(counts, Library.CountOf), 5);
    MapSliceTo(SortDesc(counts, Library.CountOf), f, 5);
    assert TopGenres(bs) == Map(top, f);
    assert Map(Map(top, f), CountPart) == top;
  }

  /* ---------------------------------------------------------------------------------------- */
  /* Template summaries                                                                       */
  /* ---------------------------------------------------------------------------------------- */

  /** The text around the author's name in a genre's template. */
  datatype Template = Template(before: string, after: string)

  /** The own entries of the summary table, by genre. */
  const SummaryTable: map<string, Template> := map[
    "Fiction" := Template(("A compelling work " + "of fiction that " + "explores the human " + "condition through "), ("'s masterful " + "storytelling.")),
    "Science Fiction" := Template(("An imaginative " + "science fiction " + "tale that pushes " + "the boundaries of " + "what's possible in "), "'s visionary world."),
    "Fantasy" := Template(("A magical fantasy " + "adventure filled " + "with wonder and " + "excitement, brought " + "to life by "), "'s rich imagination."),
    "Mystery" := Template(("A gripping mystery " + "that will keep you " + "guessing until the " + "very end, " + "showcasing "), ("'s talent for " + "suspense.")),
    "Romance" := Template(("A heartwarming " + "romance that " + "explores the " + "complexities of " + "love and " + "relationships " + "through "), ("'s engaging " + "narrative.")),
    "Thriller" := Template(("A pulse-pounding " + "thriller that " + "delivers non-stop " + "excitement and " + "unexpected twists " + "from "), "."),
    "Biography" := Template(("An insightful " + "biography that " + "provides a " + "compelling look " + "into a remarkable " + "life, written by "), "."),
    "History" := Template(("A fascinating " + "exploration of " + "historical events " + "and their impact, " + "presented through "), "'s expert analysis."),
    "Classic Literature" := Template(("A timeless classic " + "that continues to " + "resonate with " + "readers, " + "demonstrating "), ("'s enduring " + "literary genius."))
  ]

  /** The template for a genre without a table entry. */
  function GenericSummary(b: Book): string
  {
    "A captivating " + ToLower(b.genre) + " work by " + b.author + (" that offers readers an engaging and " + "memorable experience.")
  }

  /** What the summary table's lookup yields as written: an inherited member is truthy and is returned itself. */
  datatype SummaryValue = Text(text: string) | ObjectMember(name: string)

  /** `generateFallbackSummary` as written: `summaries[book.genre] || generic`. */
  function FallbackSummaryAsWritten(b: Book): (r: SummaryValue)
    ensures b.genre in PrototypeMembers && b.genre !in SummaryTable ==> r == ObjectMember(b.genre)
    ensures b.genre !in PrototypeMembers ==> r.Text?
  {
    match LookupKey(SummaryTable, b.genre)
    case Own(t) => Text(t.before + b.author + t.after)
    case Inherited(name) => ObjectMember(name)
    case Missing => Text(GenericSummary(b))
  }

  /** A book whose genre is "constructor" gets the `Object` constructor back instead of a summary. */
  lemma FallbackSummaryReturnsObjectMember(b: Book)
    requires b.genre == "constructor"
    ensures !FallbackSummaryAsWritten(b).Text?
  {
  }

  /** `generateFallbackSummary` with own-key lookup: the genre's template around the author, or the generic one. */
  function FallbackSummary(b: Book): (r: string)
    ensures b.genre in SummaryTable ==>
              r == SummaryTable[b.genre].before + b.author + SummaryTable[b.genre].after
    ensures b.genre !in SummaryTable ==> r == GenericSummary(b)
    ensures b.genre !in PrototypeMembers ==> FallbackSummaryAsWritten(b) == Text(r)
  {
    if b.genre in SummaryTable then
      var t := SummaryTable[b.genre];
      t.before + b.author + t.after
    else GenericSummary(b)
  }

  /** Every summary names the author right after a fixed text. */
  lemma SummaryNamesAuthor(b: Book)
    ensures exists k :: OccursAt(FallbackSummary(b), b.author, k)
  {
    var r := FallbackSummary(b);
    if b.genre in SummaryTable {
      var t := SummaryTable[b.genre];
      assert r == t.before + b.author + t.after;
      assert r[|t.before|..|t.before| + |b.author|] == b.author;
      assert OccursAt(r, b.author, |t.before|);
    } else {
      var before := "A captivating " + ToLower(b.genre) + " work by ";
      assert r == before + b.author + (" that offers readers an engaging and " + "memorable experience.");
      assert r[|before|..|before| + |b.author|] == b.author;
      assert OccursAt(r, b.author, |before|);
    }
  }

  /**
   * `generateAIBookSummary` with the model's answer as a parameter (`None` when the request failed):
   * the answer when a key is configured and the answer is non-empty, the template summary otherwise.
   */
  function GenerateAIBookSummary(b: Book, apiKey: Option<string>, answer: Option<string>): (r: string)
    ensures apiKey.Some? && apiKey.value != "" && answer.Some? && answer.value != "" ==> r == answer.value
    ensures apiKey.None? || apiKey.value == "" || answer.None? || answer.value == "" ==> r == FallbackSummary(b)
  {
    if apiKey.None? || apiKey.value == "" then FallbackSummary(b)
    else if answer.Some? && answer.value != "" then answer.value
    else FallbackSummary(b)
  }

  /* ---------------------------------------------------------------------------------------- */
  /* Parsing the model's answer                                                               */
  /* ---------------------------------------------------------------------------------------- */

  /** The insights returned to the caller. */
  datatype LibraryInsights = LibraryInsights(
    topGenres: seq<GenreShare>,
    readingTrends: string,
    recommendations: seq<string>,
    score: int,
    factors: seq<string>)

  /** The variables the parsing loop updates. */
  datatype ScanState = ScanState(trends: string, recommendations: seq<string>, score: nat)

  /** The state before the first line. */
  const InitialScan := ScanState("", [], 7)

  /** `aiResponse.split('\n').filter(line => line.trim())`. */
  function NonBlankLines(text: string): (r: seq<string>)
    ensures forall l :: l in r ==> l != [] && '\n' !in l && !IsBlank(l)
    ensures forall l :: l in Split(text, '\n') && !IsBlank(l) ==> l in r
    ensures IsSubsequence(r, Split(text, '\n'))
    ensures r == Filter(Split(text, '\n'), (l: string) => !IsBlank(l))
  {
    var r := Filter(Split(text, '\n'), (l: string) => !IsBlank(l));
    FilterIsSubsequence(Split(text, '\n'), (l: string) => !IsBlank(l));
    forall l | l in r ensures l != [] && '\n' !in l && !IsBlank(l) {
      var i :| 0 <= i < |Split(text, '\n')| && Split(text, '\n')[i] == l;
    }
    r
  }

  /** A line mentioning a trend or a pattern. */
  predicate IsTrendLine(line: string)
  {
    Contains(ToLower(line), "trend") || Contains(ToLower(line), "pattern")
  }

  /** A line mentioning a recommendation, or starting with a list number. */
  predicate IsRecommendationLine(line: string)
  {
    Contains(ToLower(line), "recommend") || HasNumberPrefix(line)
  }

  /** A line mentioning the score. */
  predicate IsScoreLine(line: string)
  {
    Contains(ToLower(line), "score")
  }

  /** One iteration of the parsing loop. */
  function Step(st: ScanState, line: string): (r: ScanState)
    ensures |r.recommendations| <= |st.recommendations| + 1
  {
    if IsTrendLine(line) then st.(trends := line)
    else if IsRecommendationLine(line) then st.(recommendations := st.recommendations + [StripNumberPrefix(line)])
    else if IsScoreLine(line) then
      match FirstDigitRun(line)
      case Some(ds) => st.(score := DigitsValue(ds))
      case None => st
    else st
  }

  /** The loop's state after the given lines. */
  function Scan(lines: seq<string>): (r: ScanState)
    ensures |r.recommendations| <= |lines|
  {
    if lines == [] then InitialScan else Step(Scan(lines[..|lines| - 1]), lines[|lines| - 1])
  }

  /** A line that the parser reads a score from: a score line that is neither a trend nor a recommendation and holds a digit. */
  predicate SetsScore(line: string)
  {
    !IsTrendLine(line) && !IsRecommendationLine(line) && IsScoreLine(line) && FirstDigitRun(line).Some?
  }

  /** A line that does not set the score leaves it alone. */
  lemma StepKeepsScore(st: ScanState, line: string)
    requires !SetsScore(line)
    ensures Step(st, line).score == st.score
  {
  }

  /** The score stays at its default of 7 while no line sets it. */
  lemma {:induction false} ScanDefaultScore(lines: seq<string>)
    requires forall l :: l in lines ==> !SetsScore(l)
    ensures Scan(lines).score == 7
  {
    if lines != [] {
      var init := lines[..|lines| - 1];
      assert forall l :: l in init ==> l in lines;
      ScanDefaultScore(init);
      StepKeepsScore(Scan(init), lines[|lines| - 1]);
    }
  }

  /** After the last line that sets the score, the score is the value that line holds. */
  lemma {:induction false} ScanLastScore(lines: seq<string>, k: nat)
    requires k < |lines| && SetsScore(lines[k])
    requires forall j :: k < j < |lines| ==> !SetsScore(lines[j])
    ensures Scan(lines).score == DigitsValue(FirstDigitRun(lines[k]).value)
  {
    var init := lines[..|lines| - 1];
    if k < |lines| - 1 {
      assert forall j :: k < j < |init| ==> init[j] == lines[j];
      ScanLastScore(init, k);
      StepKeepsScore(Scan(init), lines[|lines| - 1]);
    }
  }

  /** Every parsed recommendation is a line of the answer with its list number removed. */
  lemma {:induction false} ScanRecommendations(lines: seq<string>)
    ensures forall r :: r in Scan(lines).recommendations ==> exists l :: l in lines && IsRecommendationLine(l) && r == StripNumberPrefix(l)
  {
    if lines != [] {
      var init := lines[..|lines| - 1];
      ScanRecommendations(init);
      assert forall l :: l in init ==> l in lines;
    }
  }

  /** A line the loop turns into a recommendation: one that is not a trend line. */
  predicate AddsRecommendation(line: string)
  {
    !IsTrendLine(line) && IsRecommendationLine(line)
  }

  /**
   * The parsed recommendations are exactly the recommendation lines that are not trend lines,
   * in answer order, each with its list number removed.
   */
  lemma {:induction false} ScanCollectsRecommendations(lines: seq<string>)
    ensures Scan(lines).recommendations == Map(Filter(lines, AddsRecommendation), StripNumberPrefix)
  {
    if lines != [] {
      var init := lines[..|lines| - 1];
      var last := lines[|lines| - 1];
      ScanCollectsRecommendations(init);
      assert lines == init + [last];
      FilterAppend(init, [last], AddsRecommendation);
      var front := Filter(init, AddsRecommendation);
      if AddsRecommendation(last) {
        assert Filter([last], AddsRecommendation) == [last];
        assert Map(front + [last], StripNumberPrefix) == Map(front, StripNumberPrefix) + [StripNumberPrefix(last)];
      } else {
        assert Filter([last], AddsRecommendation) == [];
        assert front + [] == front;
      }
    }
  }

  /** The three-item list used when no recommendation was parsed. */
  const FallbackRecommendations: seq<string> := ["Explore new genres", "Try award-winning authors", "Balance fiction and non-fiction"]

  /** The fixed health factors of a parsed answer. */
  const ParsedFactors: seq<string> := [
    ("Collection demonstrates good genre " + "diversity"),
    ("Reading habits show consistent " + "engagement"),
    ("Library size supports varied reading " + "experiences")]

  /** The trend sentence used when no trend line was parsed. */
  function TrendsFallback(topGenres: seq<GenreShare>): string
  {
    ("Your collection shows strong " + "preferences for ")
    + (if topGenres != [] && topGenres[0].genre != "" then topGenres[0].genre else "various genres") + "."
  }

  /** `Math.max(1, Math.min(10, score))`. */
  function Clamp(score: int): (r: int)
    ensures 1 <= r <= 10
    ensures 1 <= score <= 10 ==> r == score
  {
    if score < 1 then 1 else if score > 10 then 10 else score
  }

  /** The insights `parseAIInsights` builds once the loop has run. */
  function Finish(st: ScanState, topGenres: seq<GenreShare>): (r: LibraryInsights)
    ensures 1 <= r.score <= 10
    ensures |r.recommendations| <= 4
    ensures st.recommendations == [] ==> r.recommendations == FallbackRecommendations
    ensures st.recommendations != [] ==>
              r.recommendations <= st.recommendations
              && |r.recommendations| == if |st.recommendations| < 4 then |st.recommendations| else 4
    ensures st.trends != "" ==> r.readingTrends == st.trends
    ensures st.trends == "" ==> r.readingTrends == TrendsFallback(topGenres)
    ensures r.score == Clamp(st.score)
    ensures r.topGenres == topGenres && r.factors == ParsedFactors
  {
    var trends := if st.trends == "" then TrendsFallback(topGenres) else st.trends;
    var recs := if st.recommendations == [] then FallbackRecommendations else st.recommendations;
    LibraryInsights(topGenres, trends, SliceTo(recs, 4), Clamp(st.score), ParsedFactors)
  }

  /** `parseAIInsights`: scans the non-blank lines of the answer, then applies the fallbacks and the clamp. */
  method ParseAIInsights(aiResponse: string, topGenres: seq<GenreShare>) returns (insights: LibraryInsights)
    ensures insights == Finish(Scan(NonBlankLines(aiResponse)), topGenres)
  {
    var lines := NonBlankLines(aiResponse);
    var readingTrends := "";
    var recommendations: seq<string> := [];
    var healthScore: nat := 7;
    for i := 0 to |lines|
      invariant ScanState(readingTrends, recommendations, healthScore) == Scan(lines[..i])
    {
      var line := lines[i];
      assert lines[..i + 1][..i] == lines[..i];
      if IsTrendLine(line) {
        readingTrends := line;
      } else if IsRecommendationLine(line) {
        recommendations := recommendations + [StripNumberPrefix(line)];
      } else if IsScoreLine(line) {
        var scoreMatch := FirstDigitRun(line);
        if scoreMatch.Some? {
          healthScore := DigitsValue(scoreMatch.value);
        }
      }
    }
    assert lines[..|lines|] == lines;
    insights := Finish(ScanState(readingTrends, recommendations, healthScore), topGenres);
  }

  /** An answer without any line that sets a score gets the default score 7. */
  lemma DefaultScore(aiResponse: string, topGenres: seq<GenreShare>)
    requires forall l :: l in NonBlankLines(aiResponse) ==> !SetsScore(l)
    ensures Finish(Scan(NonBlankLines(aiResponse)), topGenres).score == 7
  {
    ScanDefaultScore(NonBlankLines(aiResponse));
  }
}
