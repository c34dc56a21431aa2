# ai-shelves data layer in Dafny

This project models the client-side data layer of the ai-shelves library application:

- **Record stores.** Each store keeps its collections under browser-storage keys. An operation reads a whole collection, changes it in memory and writes the whole collection back. The stores are:
  - `LibraryService`: books and borrowing records;
  - `FavoritesService`: per-user favourite rows;
  - `WorkspaceService`: workspaces, members, activities and invitations.
- **The workspace reducer** of the React workspace provider, and the lookup its `switchWorkspace` performs.
- **Derived views** computed by `AIRecommendationService`:
  - rule-based recommendations;
  - the top-genre histogram with its rounded percentages;
  - template summaries;
  - the parsing of an AI insight text into a clamped score and a recommendation list.
- **Catalogue normalisation** in `OpenLibraryService`:
  - the genre normaliser;
  - the defaults applied to a remote search document;
  - the fixed 45-book fallback catalogue;
  - the cover and book URLs.

## How it is modelled

Each store is a `class` with one field per storage key. Its methods change those fields with `modifies this`, as the service rewrites its keys. Every such method is tied in its `ensures` to a pure function over sequences, for example:

- `UpdatedBooks`, `WithoutBook` and `ReturnFirstOpen` for the library;
- `AddFavorite` and `RemoveFavorite` for favourites;
- `DeleteWorkspaceData` and `CreateDefault` for workspaces.

The lemmas next to those functions state what the service promises:

- what is found and what is not;
- that nothing else changes;
- that (user, book) pairs stay unique;
- that a delete cascades;
- that no row points at a deleted workspace.

The two pieces of code that are themselves pure are modelled as functions over datatypes: the reducer and the Open Library normalisation. `parseAIInsights` is a loop and stays a method with a loop invariant, proved against the fold `Scan`.

Values the source draws from the clock or from `Math.random` become parameters: ids, tokens, time stamps, the random genre and ISBN, and the availability draws. The modules are:

| module | models |
|---|---|
| `Wrappers` | the `Option` datatype |
| `Seqs` | `filter`, `find`/`findIndex`, `some`, `map`, `slice`, and a descending sort by a key |
| `Text` | `toLowerCase`, `includes`, `trim`, the `\s` and `\d` classes, `split`, and rendering a number in decimal |
| `JsObject` | `table[key]` on a plain object literal, including the names it inherits from `Object.prototype` |
| `LibraryTypes` | the records and enums of src/types/library.ts |
| `Library` | src/services/libraryService.ts |
| `Favorites` | src/services/favoritesService.ts |
| `Workspaces` | src/services/workspaceService.ts |
| `WorkspaceContext` | the reducer and `switchWorkspace` of src/contexts/WorkspaceContext.tsx |
| `Recommendations` | src/services/aiRecommendationService.ts |
| `OpenLibrary` | src/services/openLibraryService.ts |

Three behaviours of the code are worth stating plainly:

- `getBooks` returns the seed catalogue while nothing is stored, but does not write it back (`LibraryStore.storedBooks` stays `None`).
- `searchBooks` falls back to the fallback catalogue only when the request fails.
- `getPopularBooks` falls back when the request fails and also when it returns no documents.

## Model

| member | source | states |
|---|---|---|
| Library.DefaultCatalogue | src/services/libraryService.ts:143-193 | With nothing stored, the book list is the four seed books. Their ids are "1" to "4". Only book "2" is on loan. Every seed book keeps the availability invariant. |
| Library.LibraryStore.constructor | src/services/libraryService.ts:7-10 | A fresh store has no stored book list, so reading it yields the seed catalogue, and it has an empty borrowing log. |
| Library.LibraryStore.AddBook | src/services/libraryService.ts:25-35 | Appends exactly one book: the input under the fresh id, forced available whatever the input said. Earlier books are unchanged, the length grows by one, and the borrowing log is untouched. |
| Library.UpdatedBooks | src/services/libraryService.ts:37-45 | There is no result exactly when no book has the id. Otherwise the length is kept and the first book with the id is replaced by the merge of the patch. |
| Library.LibraryStore.UpdateBook | src/services/libraryService.ts:37-45 | Returns null and saves nothing when the id is absent. Otherwise it stores `UpdatedBooks` and returns the merged book at the first matching position. |
| Library.WithoutBook | src/services/libraryService.ts:47-54 | The remaining books are exactly the books without the id, as a subsequence in the original order. The length is unchanged exactly when no book has the id. |
| Library.LibraryStore.DeleteBook | src/services/libraryService.ts:47-54 | Returns true exactly when some book has the id. In that case it stores the list without every such book; otherwise it saves nothing. |
| Library.CheckOutLends | src/services/libraryService.ts:56-62 | The check-out patch makes a book unavailable with the borrower, due date and borrow time set, whatever state the book was in, and keeps its catalogue data. |
| Library.LibraryStore.CheckOutBook | src/services/libraryService.ts:56-78 | For an existing id: lends the first book with that id, appends exactly one open borrowing record, and returns true. For a missing id: returns false and changes neither list. Availability is never checked. |
| Library.CheckInReturns | src/services/libraryService.ts:80-86 | The check-in patch makes a book available and clears the borrower, due date and borrow time. |
| Library.ReturnFirstOpen | src/services/libraryService.ts:88-94 | Keeps the log's length. The first open record of the book is closed with the given return time, and every other record is unchanged. With no open record the log is unchanged. |
| Library.LibraryStore.CheckInBook | src/services/libraryService.ts:80-98 | For an existing id: frees the first book with that id, closes its first open record, and returns true even when no record was open. For a missing id: returns false and changes nothing. |
| Library.CheckOutThenInFreesBook | src/services/libraryService.ts:56-98 | Checking a book out and then in leaves it available, with no loan data and with the availability invariant restored. |
| Library.CheckOutThenInClosesOneRecord | src/services/libraryService.ts:56-98 | Checking out and then in closes exactly one open record of the book and leaves every other record unchanged. When no older loan of the book was open, the closed record is the one the check-out appended. |
| Library.SearchBooks | src/services/libraryService.ts:100-114 | A book is kept exactly when it matches both conditions: the case-insensitive query in its title, author or a tag, and the genre filter. The result is a subsequence in catalogue order. |
| Library.SearchEverything | src/services/libraryService.ts:104-113 | An empty query with no genre, or with the genre "all", returns the whole list in order. |
| Library.SearchIgnoresQueryCase | src/services/libraryService.ts:100-110 | Searching for a query and for its lower-cased form gives the same books, for every list, query and genre. |
| Library.TitleStartingWithQueryMatches | src/services/libraryService.ts:102-106 | A book whose lower-cased title starts with the lower-cased query matches the query. |
| Library.SearchIgnoresCase | src/services/libraryService.ts:102-106 | The query "dune" finds both "Dune" and "Dunetown": matching ignores case and looks for a substring. |
| Library.SearchMissesAbsentLetter | src/services/libraryService.ts:104-112 | When no title, author or tag contains the query's first letter in either case, the search returns nothing. |
| Library.BumpCounts | src/services/libraryService.ts:120-123 | One step of the genre `reduce` turns the histogram of a list into the histogram of that list with one more book. |
| Library.GenreCounts | src/services/libraryService.ts:120-126 | Every entry's count is the number of books of that genre and is positive. Every genre present has an entry, and no genre has two entries. |
| Library.PopularGenres | src/services/libraryService.ts:125-128 | At most five entries, in non-increasing count order, each with the true positive count of its genre. No genre appears twice. |
| Library.PopularGenresAreTheTopFive | src/services/libraryService.ts:125-128 | A genre left out of the popular genres means the list holds five genres, each with a count at least as high. |
| Library.RecentBorrowings | src/services/libraryService.ts:130-132 | Exactly five records, or the whole log when it is shorter, newest borrow time first. As a multiset they are contained in the log. |
| Library.RecentBorrowingsAreTheNewest | src/services/libraryService.ts:130-132 | A record left out means five records are listed, none older than it. |
| Library.Stats | src/services/libraryService.ts:116-141 | The total is the number of books and equals borrowed plus available. Borrowed counts the unavailable books. The popular genres and recent borrowings are as above. |
| Favorites.UserFavorites | src/services/favoritesService.ts:7-11 | The rows of the user, exactly, in stored order. |
| Favorites.IsFavorite | src/services/favoritesService.ts:25-28 | True exactly when some stored row pairs the user with the book. |
| Favorites.AddFavorite | src/services/favoritesService.ts:31-54 | Always returns a row of the pair that is in the resulting list. When the pair exists, the list is unchanged and the existing row is returned. Otherwise exactly one new row is appended. |
| Favorites.AddIsIdempotent | src/services/favoritesService.ts:34-41 | Adding the same pair a second time changes nothing and returns the same row. |
| Favorites.AddKeepsPairsUnique | src/services/favoritesService.ts:31-54 | Adding keeps every (user, book) pair recorded at most once. |
| Favorites.FavoritesStore.AddToFavorites | src/services/favoritesService.ts:31-54 | Stores and returns what `AddFavorite` computes. Afterwards the pair is a favourite, and pair uniqueness is preserved. |
| Favorites.RemoveFavorite | src/services/favoritesService.ts:57-69 | There is no result exactly when the pair is not a favourite. Otherwise every row of the pair is dropped and all other rows remain, in order. |
| Favorites.RemoveUndoesAdd | src/services/favoritesService.ts:31-69 | Removing a pair that was just added, and was not there before, restores the original list. |
| Favorites.RemoveKeepsPairsUnique | src/services/favoritesService.ts:57-69 | Removing a pair keeps every (user, book) pair recorded at most once. |
| Favorites.FavoritesStore.RemoveFromFavorites | src/services/favoritesService.ts:57-69 | Returns true exactly when the pair was a favourite. Afterwards it is not a favourite, and nothing is written when there was nothing to remove. Pair uniqueness is preserved. |
| Favorites.ToggleFavorite | src/services/favoritesService.ts:72-80 | Flips whether the pair is a favourite and reports the new value. The stored list is what `RemoveFavorite` leaves for a favourite pair, and what `AddFavorite` gives otherwise. A new row is returned exactly when the pair became a favourite. |
| Favorites.ToggleTwiceRestores | src/services/favoritesService.ts:72-80 | Toggling twice from a non-favourite state restores the list exactly. |
| Favorites.FavoritesStore.Toggle | src/services/favoritesService.ts:72-80 | Stores and reports what `ToggleFavorite` computes. Pair uniqueness is preserved. |
| Favorites.FavoriteBookIds | src/services/favoritesService.ts:83-86 | A book id is listed exactly when it is a favourite of the user. The list is as long as the favourites count. |
| Favorites.FavoritesCount | src/services/favoritesService.ts:89-91 | The length of the user's favourites list, so at most the number of rows. It is zero exactly when the user has no row. |
| Favorites.ClearUserRemovesTheCount | src/services/favoritesService.ts:89-98 | Clearing a user removes exactly as many rows as the user's favourites count. |
| Favorites.ClearUser | src/services/favoritesService.ts:94-98 | Exactly the rows of every other user remain, in stored order. |
| Favorites.ClearUserIsolated | src/services/favoritesService.ts:94-98 | Afterwards the user has no favourites, and every other user's list is unchanged. |
| Favorites.ClearKeepsPairsUnique | src/services/favoritesService.ts:94-98 | Clearing a user keeps every (user, book) pair recorded at most once. |
| Favorites.FavoritesStore.ClearUserFavorites | src/services/favoritesService.ts:94-98 | Stores `ClearUser` of the old rows. Pair uniqueness is preserved. |
| Workspaces.FindWorkspace | src/services/workspaceService.ts:18-21 | The first workspace with the id. There is no result exactly when no workspace has the id. |
| Workspaces.NewWorkspace | src/services/workspaceService.ts:23-36 | The draft under the fresh id, with the creation time equal to the update time. |
| Workspaces.WorkspaceStore.CreateWorkspace | src/services/workspaceService.ts:23-36 | Appends exactly the new workspace. The other three collections are unchanged. |
| Workspaces.CreateThenFind | src/services/workspaceService.ts:18-36 | A workspace created under an unused id is what `getWorkspace` then finds. |
| Workspaces.ApplyWorkspacePatch | src/services/workspaceService.ts:44-48 | The update time always becomes the current time. The id and creation time survive unless the patch sets them. |
| Workspaces.EmptyWorkspacePatchTouches | src/services/workspaceService.ts:44-48 | An empty patch changes only the update time. |
| Workspaces.RenameTouchesOnlyName | src/services/workspaceService.ts:44-48 | A patch that sets only the name changes the name and the update time, and nothing else. |
| Workspaces.UpdatedWorkspaces | src/services/workspaceService.ts:38-52 | There is no result exactly when the id is absent. Otherwise the length is kept, only the first workspace with the id is patched, and the other positions are unchanged. |
| Workspaces.WorkspaceStore.UpdateWorkspace | src/services/workspaceService.ts:38-52 | Returns null and writes nothing when the id is absent. Otherwise it stores `UpdatedWorkspaces` and returns the patched workspace. |
| Workspaces.DeleteWorkspaceData | src/services/workspaceService.ts:54-68 | There is no result exactly when the id is unknown. Otherwise each of the four lists becomes the `filter` of the old list that drops the entries carrying the id. Everything else remains, in stored order, and the workspace list gets shorter. |
| Workspaces.DeleteKeepsReferences | src/services/workspaceService.ts:117-121 | After a cascading delete, every remaining member, activity and invitation still belongs to a stored workspace. |
| Workspaces.DeleteTwiceFails | src/services/workspaceService.ts:54-68 | Deleting the same id a second time reports false. |
| Workspaces.WorkspaceStore.DeleteWorkspace | src/services/workspaceService.ts:54-68 | Returns true exactly when the workspace existed. Stores `DeleteWorkspaceData`, or leaves all four collections untouched. |
| Workspaces.WorkspaceMembers | src/services/workspaceService.ts:70-78 | The `filter` of the stored rows by workspace id: every row of the workspace, duplicates included, in stored order, and no other row. |
| Workspaces.WorkspaceStore.AddWorkspaceMember | src/services/workspaceService.ts:80-85 | Appends the row as given, with no duplicate or workspace check. Nothing else changes. |
| Workspaces.ApplyMemberPatch | src/services/workspaceService.ts:93 | The role is the patch's role when the patch sets one. The user and workspace are kept unless the patch sets them. |
| Workspaces.RoleChangeTouchesOnlyRole | src/services/workspaceService.ts:93 | A patch that sets only the role changes the role and nothing else. |
| Workspaces.UpdatedMembers | src/services/workspaceService.ts:87-96 | There is no result exactly when there is no row for the (workspace, user) pair. Otherwise only the first such row is patched and the length is kept. |
| Workspaces.WorkspaceStore.UpdateWorkspaceMember | src/services/workspaceService.ts:87-96 | Returns null and writes nothing without a match. Otherwise it stores `UpdatedMembers` and returns the patched row. |
| Workspaces.RemovedMembers | src/services/workspaceService.ts:98-106 | There is no result exactly when there is no row for the pair. Otherwise the list is the `filter` that drops every row of the pair and keeps every other row, duplicates included, in order. The list gets shorter. |
| Workspaces.RemoveMemberIsLocal | src/services/workspaceService.ts:98-106 | Removing a member leaves every other workspace's member list unchanged. |
| Workspaces.WorkspaceStore.RemoveWorkspaceMember | src/services/workspaceService.ts:98-106 | Returns true exactly when some row was dropped. Stores `RemovedMembers`' list; only the member list changes. |
| Workspaces.ActivitiesOf | src/services/workspaceService.ts:127-128 | The `filter` of the stored activities by workspace id: every activity of the workspace, duplicates included, in stored order, and no other. |
| Workspaces.WorkspaceActivities | src/services/workspaceService.ts:123-135 | Activities of the workspace, newest first, contained as a multiset in the workspace's activities. With no limit or a zero limit, all of them. With a positive limit, exactly that many, or all when there are fewer. A negative limit drops that many from the end. What any limit keeps is no older than what it drops, as `LimitedActivitiesAreTheNewest` states. |
| Workspaces.LimitedActivitiesAreTheNewest | src/services/workspaceService.ts:129-131 | Under any non-zero limit, positive or negative, an activity of the workspace that is left out is no newer than any listed one. Under a positive limit exactly that many are then listed. |
| Workspaces.SameTimeActivitiesKeepOrder | src/services/workspaceService.ts:129 | The sort is stable: activities with the same time stamp are listed in their stored order. |
| Workspaces.WorkspaceStore.AddWorkspaceActivity | src/services/workspaceService.ts:137-142 | Appends the activity as given. Nothing else changes. |
| Workspaces.WorkspaceInvitations | src/services/workspaceService.ts:159-167 | The `filter` of the stored invitations by workspace id: every invitation of the workspace, duplicates included, in stored order, and no other. |
| Workspaces.NewInvitation | src/services/workspaceService.ts:169-180 | The draft with the fresh id and token. |
| Workspaces.WorkspaceStore.CreateInvitation | src/services/workspaceService.ts:169-180 | Appends exactly the new invitation. Nothing else changes. |
| Workspaces.ApplyInvitationPatch | src/services/workspaceService.ts:188 | The status is the patch's status when the patch sets one. The id and token are kept unless the patch sets them. |
| Workspaces.StatusChangeTouchesOnlyStatus | src/services/workspaceService.ts:188 | A patch that sets only the status changes the status and nothing else. |
| Workspaces.UpdatedInvitations | src/services/workspaceService.ts:182-191 | There is no result exactly when the id is absent. Otherwise only the first invitation with the id is patched and the length is kept. |
| Workspaces.WorkspaceStore.UpdateInvitation | src/services/workspaceService.ts:182-191 | Returns null and writes nothing when the id is absent. Otherwise it stores `UpdatedInvitations` and returns the patched invitation. |
| Workspaces.UserWorkspaces | src/services/workspaceService.ts:208-216 | A workspace is listed exactly when the user owns it or has a member row in it. The result is a subsequence of all workspaces, in order. |
| Workspaces.DefaultDraft | src/services/workspaceService.ts:218-235 | The personal workspace draft: owned by the user, named with the user's name followed by "'s Library", private, with 14-day loans. |
| Workspaces.CreateDefault | src/services/workspaceService.ts:218-258 | Appends the workspace, one owner row for the user and one "created" activity on the workspace. The invitations are untouched. |
| Workspaces.CreateDefaultIsUsers | src/services/workspaceService.ts:208-258 | The new workspace is among the user's workspaces, and its member list gains exactly the owner row. |
| Workspaces.CreateDefaultKeepsReferences | src/services/workspaceService.ts:218-258 | Creating the default workspace keeps every row attached to a stored workspace. |
| Workspaces.WorkspaceStore.CreateDefaultWorkspace | src/services/workspaceService.ts:218-258 | Stores what `CreateDefault` computes. The returned workspace is then listed for the user. |
| WorkspaceContext.ReplaceById | src/contexts/WorkspaceContext.tsx:71-73 | Keeps the length. Every entry with the payload's id becomes the payload; every other entry is kept. |
| WorkspaceContext.Reduce | src/contexts/WorkspaceContext.tsx:47-90 | Each action changes only the fields it names, and an unknown action returns the state unchanged. |
| WorkspaceContext.LoadingFlag | src/contexts/WorkspaceContext.tsx:49-86 | `SET_LOADING` sets the flag. Errors, list loads, selections, adds and updates clear it. The setters of members and activities, `REMOVE_WORKSPACE` and unknown actions leave it alone. |
| WorkspaceContext.SettersAreLocal | src/contexts/WorkspaceContext.tsx:49-60 | Each setter stores its payload in its own field and changes nothing else. `SET_ERROR`, `SET_WORKSPACES` and `SET_CURRENT_WORKSPACE` also clear the loading flag. |
| WorkspaceContext.AddSelects | src/contexts/WorkspaceContext.tsx:61-67 | `ADD_WORKSPACE` appends the payload and selects it, so the selection is listed. |
| WorkspaceContext.UpdateReplacesById | src/contexts/WorkspaceContext.tsx:68-78 | `UPDATE_WORKSPACE` keeps the length and replaces every entry with the payload's id. It replaces the selection only when its id matches. |
| WorkspaceContext.RemoveDropsId | src/contexts/WorkspaceContext.tsx:79-86 | `REMOVE_WORKSPACE` keeps exactly the entries without the id, in order. The selection becomes null exactly when its id matched, and is otherwise kept unchanged. |
| WorkspaceContext.ReduceKeepsCurrentListed | src/contexts/WorkspaceContext.tsx:47-90 | Every action other than loading a list or a selection keeps the selection among the listed workspaces. |
| WorkspaceContext.SwitchWorkspace | src/contexts/WorkspaceContext.tsx:137-149 | Ends with the loading flag cleared. A listed id selects the first listed workspace with that id. An unlisted id keeps the selection and records "Failed to switch workspace". |
| Recommendations.PoolList | src/services/aiRecommendationService.ts:117-130 | The pool has an own list exactly for "Fiction", "Science Fiction" and "Fantasy". Each list holds two books of that genre. |
| Recommendations.FullPool | src/services/aiRecommendationService.ts:140 | The flattened pool holds six books, all of pool genres. |
| Recommendations.FullPoolInKeyOrder | src/services/aiRecommendationService.ts:140 | The flattened pool is the three lists concatenated in key order. |
| Recommendations.TargetGenre | src/services/aiRecommendationService.ts:133 | The target book's genre when there is a target whose genre is non-empty; otherwise the option's genre. |
| Recommendations.Candidates | src/services/aiRecommendationService.ts:133-141 | The pool list of the target genre when it is a pool key. Otherwise the whole pool in key order. |
| Recommendations.UntakenCandidates | src/services/aiRecommendationService.ts:143-147 | Exactly the candidates whose lower-cased title is not already in the collection, in candidate order. |
| Recommendations.RuleBasedRecommendations | src/services/aiRecommendationService.ts:109-150 | A prefix of the untaken candidates. Its length is the smaller of the limit (five by default) and the number of untaken candidates. A negative limit drops that many from the end. |
| Recommendations.ShortSelectionIsComplete | src/services/aiRecommendationService.ts:143-149 | A selection shorter than its limit holds every untaken candidate. |
| Recommendations.EmptyCollectionTakesNothing | src/services/aiRecommendationService.ts:143-147 | With an empty collection every candidate is untaken. |
| Recommendations.RecommendationsKeepGenre | src/services/aiRecommendationService.ts:133-141 | With a pool genre chosen, every recommendation has that genre. |
| Recommendations.DefaultRecommendations | src/services/aiRecommendationService.ts:114-149 | For an empty collection with no target and no options, the result is the first five pool books. |
| Recommendations.GenerateBookRecommendations | src/services/aiRecommendationService.ts:25-39 | The rule-based result, with or without an API key. |
| Recommendations.Percentage | src/services/aiRecommendationService.ts:74 | `round(count / total * 100)` as an exact integer bound. The result is at most 100 when the count does not exceed the total. |
| Recommendations.TopGenres | src/services/aiRecommendationService.ts:65-77 | At most five entries, in non-increasing count order, each with its genre's true positive count and its rounded percentage. No genre appears twice. |
| Recommendations.TopGenresArePopularGenres | src/services/aiRecommendationService.ts:65-77 | Without their percentages, the top genres are exactly the statistics' popular genres. |
| Recommendations.FallbackSummaryAsWritten | src/services/aiRecommendationService.ts:152-166 | The table lookup as written: an inherited member of a plain object is returned in place of a summary. |
| Recommendations.FallbackSummaryReturnsObjectMember | src/services/aiRecommendationService.ts:165 | For the genre "constructor" the summary is not text. |
| Recommendations.FallbackSummary | src/services/aiRecommendationService.ts:152-166 | For the nine table genres, the genre's sentence around the author. For any other genre, the generic sentence with the lower-cased genre. It agrees with the code as written on every genre that is not an inherited name. |
| Recommendations.SummaryNamesAuthor | src/services/aiRecommendationService.ts:152-166 | Every fallback summary contains the author's name. |
| Recommendations.GenerateAIBookSummary | src/services/aiRecommendationService.ts:41-59 | The model's answer when there is a key and a non-empty answer. Otherwise the fallback summary. |
| Recommendations.NonBlankLines | src/services/aiRecommendationService.ts:215 | Exactly the lines that are not blank, in answer order. Every kept line is non-empty and has no line break. |
| Recommendations.ScanDefaultScore | src/services/aiRecommendationService.ts:219-233 | With no line that sets a score, the score stays 7. |
| Recommendations.ScanLastScore | src/services/aiRecommendationService.ts:228-232 | The score is the first number on the last line that sets one. |
| Recommendations.ScanRecommendations | src/services/aiRecommendationService.ts:226-227 | Every parsed recommendation is a recommendation line with its leading number removed. |
| Recommendations.ScanCollectsRecommendations | src/services/aiRecommendationService.ts:219-233 | The parsed recommendations are exactly the recommendation lines that are not trend lines, in answer order, each with its number removed. |
| Recommendations.Clamp | src/services/aiRecommendationService.ts:255 | The score is brought into 1 to 10, and a score already in range is kept. |
| Recommendations.Finish | src/services/aiRecommendationService.ts:236-258 | The score is the parsed score clamped to 1 to 10. At most four recommendations: the first four parsed, or the fixed three-item list when none were parsed. A parsed trend line is kept; without one, the sentence naming the first top genre, or "various genres". |
| Recommendations.ParseAIInsights | src/services/aiRecommendationService.ts:213-259 | The loop over the non-blank lines computes exactly `Finish(Scan(...))`, so every property above holds of its result. |
| Recommendations.DefaultScore | src/services/aiRecommendationService.ts:219-255 | When no line sets a score, the insight score is 7. |
| OpenLibrary.CollapseWhitespace | src/services/openLibraryService.ts:132 | Never longer than its input. |
| OpenLibrary.CollapseLeavesNoWhitespace | src/services/openLibraryService.ts:132 | After `replace(/\s+/g, '_')` no whitespace remains. |
| OpenLibrary.CollapseTwoWords | src/services/openLibraryService.ts:132 | Two words separated by a whitespace run become the words joined by one underscore. |
| OpenLibrary.NormalizeGenreAsWritten | src/services/openLibraryService.ts:115-134 | The lookup as written. A key of the table gives its genre. A key that is an inherited member gives that member instead of a genre. |
| OpenLibrary.ConstructorSubjectEscapes | src/services/openLibraryService.ts:132-133 | The subject "constructor" yields the `Object` constructor, not a genre name. |
| OpenLibrary.NormalizeGenre | src/services/openLibraryService.ts:115-134 | Always one of the 13 table values. A table key gives its value, and anything else gives "Fiction". It agrees with the code as written on every key that is not an inherited name. |
| OpenLibrary.GenreKeyOfTwoWords | src/services/openLibraryService.ts:132 | The key of two words separated by whitespace is the lower-cased words joined by an underscore. |
| OpenLibrary.NormalizeSpacedSubject | src/services/openLibraryService.ts:117-133 | "Science  Fiction" normalises to "Science Fiction". |
| OpenLibrary.NormalizeClassicLiterature | src/services/openLibraryService.ts:127-133 | "Classic Literature" normalises to "Fiction". |
| OpenLibrary.NormalizeIsNotIdempotent | src/services/openLibraryService.ts:127-133 | Some value of the table does not normalise to itself. |
| OpenLibrary.WorkKeyIsStripped | src/services/openLibraryService.ts:99 | A work key loses its "/works/" prefix. |
| OpenLibrary.RemoveFirst | src/services/openLibraryService.ts:99 | Removes the first occurrence of the pattern and nothing else. Without an occurrence the text is unchanged. |
| OpenLibrary.DocId | src/services/openLibraryService.ts:99 | Never empty. It is the stripped key whenever that is non-empty. |
| OpenLibrary.SubjectTags | src/services/openLibraryService.ts:105 | Without subjects, ["fiction", "literature"]. With subjects, their first three or fewer. |
| OpenLibrary.ConvertToBook | src/services/openLibraryService.ts:86-113 | The genre is always a normalised genre, and the id is never empty. |
| OpenLibrary.ConvertKeepsFields | src/services/openLibraryService.ts:93-105 | Present, truthy fields are kept: the title, the first author, the year and the first three subjects. The genre is normalised from the first subject. |
| OpenLibrary.ConvertDefaults | src/services/openLibraryService.ts:100-105 | A missing title gives "Unknown Title". A missing author gives "Unknown Author". A missing year gives 2020. Missing subjects give ["fiction", "literature"]. |
| OpenLibrary.ConvertedLoanNeedsAgreeingDraws | src/services/openLibraryService.ts:107-110 | A converted book keeps the availability invariant only when the independent random draws happen to agree. |
| OpenLibrary.ConvertAll | src/services/openLibraryService.ts:33 | Converts every document at its own index. |
| OpenLibrary.SearchResults | src/services/openLibraryService.ts:22-38 | The converted documents, or the fallback catalogue when the request fails. |
| OpenLibrary.PopularResults | src/services/openLibraryService.ts:40-64 | Never empty. The fallback catalogue when the request fails or returns no documents. |
| OpenLibrary.PopularNeverEmpty | src/services/openLibraryService.ts:40-64 | At least one book, and all 45 fallback books when the request failed or returned none. |
| OpenLibrary.FallbackIdsDistinct | src/services/openLibraryService.ts:136-703 | Distinct positions carry distinct "fallback-N" ids. |
| OpenLibrary.FallbackBook | src/services/openLibraryService.ts:136-703 | Each fallback book carries its "fallback-N" id and keeps the availability invariant. It is on loan exactly at the listed positions. |
| OpenLibrary.FallbackCatalogue | src/services/openLibraryService.ts:136-703 | Exactly 45 books, with pairwise distinct ids, every one keeping the availability invariant. |
| OpenLibrary.FallbackIdRange | src/services/openLibraryService.ts:139-701 | The ids run from "fallback-1" to "fallback-45". |
| OpenLibrary.FallbackTitlesRepeat | src/services/openLibraryService.ts:486-535 | "Atomic Habits" appears twice, as two different books. |
| OpenLibrary.FallbackLoans | src/services/openLibraryService.ts:136-703 | A fallback book is unavailable exactly at the listed loan positions. |
| OpenLibrary.CoverUrl | src/services/openLibraryService.ts:705-707 | Reads back as the covers host, the id, a dash, the size letter and ".jpg". With no size given, the letter is M. |
| OpenLibrary.CoverUrlInjective | src/services/openLibraryService.ts:705-707 | Two equal cover URLs name the same id and the same size, with an absent size counting as M. |
| OpenLibrary.BookUrl | src/services/openLibraryService.ts:709-711 | The base URL followed by exactly the key. |
| Text.FirstDigitRun | src/services/aiRecommendationService.ts:229-231 | A non-empty digit run that occurs in the line with no digit before it and a non-digit or the end after it. There is none exactly when the line has no digit. |
| Text.StripNumberPrefix | src/services/aiRecommendationService.ts:227 | A numbered line is one or more digits, a full stop, whitespace and the result, which does not start with whitespace. Other lines are left unchanged. |
| Text.JoinSplit | src/services/aiRecommendationService.ts:215 | Joining the pieces of `split('\n')` with the separator gives back the text. |
| Text.DecimalInjective | src/services/openLibraryService.ts:104 | Distinct numbers render as distinct digit strings. |

## Left out

- Browser storage and JSON (de)serialisation. Each storage key is a field of a store class. An absent key reads as the empty list, or as the seed catalogue for 'library_books'. A parse failure is not modelled.
- Network I/O is outside the model:
  - the `fetch` calls of `searchBooks`, `getPopularBooks` and `getTrendingBooks`;
  - the Gemini service;
  - the AI branches of `generateAIBookSummary` and `generateLibraryInsights`.
  The search results are modelled given the fetched documents, or `None` for a failed request. `GenerateAIBookSummary` takes the key and the model's answer as parameters.
- `getRuleBasedInsights` and the rest of `generateLibraryInsights` use floating-point arithmetic and give NaN for an empty library. Only their `topGenres` computation is modelled.
- Recommendations.Percentage: models `Math.round` on the exact quotient. Floating-point rounding of `count / n * 100` is not modelled.
- Clocks and randomness are parameters: ids, tokens, time stamps, the random genre index, the ISBN number and the availability draws. Time stamps are integers, so sorting by `new Date(...).getTime()` is sorting by that integer.
- The several `new Date()` readings in one call are modelled as one reading `now`.
- The random due date of `convertToBook` is a free parameter; its date arithmetic is not modelled.
- Text.ToLower: maps only the ASCII letters A-Z, unlike the full Unicode `toLowerCase`.
- Library.GenreCounts: gives the own-key histogram, in first-seen order. Two things in the source are not captured:
  - `Object.entries` lists integer-like genre names first;
  - the plain-object accumulator misbehaves for the genres "constructor" and "__proto__".
- Recommendations.PoolList: answers only for the pool's own keys. An inherited name such as "constructor" as target genre makes the source take a non-array value and fail at `filter`; that path is not modelled.
- The React UI, pages and components, and their duplicated filter and statistics code.
- The asynchronous provider callbacks of the workspace context:
  - `loadUserWorkspaces`;
  - the console-logging `inviteMember`, `removeMember`, `updateMemberRole` and `joinWorkspace`.
- The `useOpenLibraryBooks` hook, which clears storage and re-fetches.
- `getAllFavorites`, `getAllMembers`, `getAllActivities` and `getAllInvitations` are only the reads of a storage key, which are the class fields here.
- The private `removeWorkspace…` helpers are modelled through the cascade in `DeleteWorkspaceData`.
- `getTrendingBooks` is a `searchBooks` call with a fixed query, so it has no member of its own.
- The optional collaboration fields of src/types/library.ts are not carried by the model: `workspaceId`, `createdBy`, `lastModifiedBy`, `lastModified` and `version` of a book, and `workspaceId` of a borrowing record. No core operation reads or writes them.
- OpenLibrary.ConvertToBook: normalises the genre with the corrected `NormalizeGenre`. For a first subject "constructor" the source stores the `Object` constructor as the genre (openLibraryService.ts:102 and 132-133); `NormalizeGenreAsWritten` and `ConstructorSubjectEscapes` model that path.
- Workspaces.WorkspaceStore.AddWorkspaceMember: appends without any duplicate check, as the source does. Pair uniqueness of member rows is therefore not an invariant of the model.

## Findings

| source | as written | input that shows it | evidently intended | confidence | as-written member | corrected member |
|---|---|---|---|---|---|---|
| src/services/openLibraryService.ts:132-133 | `genreMap[normalized] \|\| 'Fiction'` looks the key up on a plain object literal, which also answers for the names it inherits from `Object.prototype` | a document whose first subject is "constructor" | a genre outside the table maps to "Fiction" | not executed | OpenLibrary.ConstructorSubjectEscapes | OpenLibrary.NormalizeGenre |
| src/services/aiRecommendationService.ts:165 | `summaries[book.genre] \|\| …` looks the genre up on a plain object literal | a book whose genre is "constructor" | a genre outside the table gets the generic summary | not executed | Recommendations.FallbackSummaryReturnsObjectMember | Recommendations.FallbackSummary |
