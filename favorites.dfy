/**
 * Per-user favourite books. Every operation reads the whole list under 'user_favorites',
 * changes it in memory and writes it back; `FavoritesStore` keeps that list as a field. An
 * absent key reads as the empty list. Ids and clock readings are parameters.
 */
module Favorites {
  import opened Wrappers
  import opened LibraryTypes
  import opened Seqs

  /** The row records that `userId` favourited `bookId`. */
  predicate IsPair(f: UserFavorite, userId: string, bookId: string)
  {
    f.userId == userId && f.bookId == bookId
  }

  /** No (user, book) pair is recorded twice: what the add operation keeps true. */
  ghost predicate PairsUnique(fs: seq<UserFavorite>)
  {
    forall i, j :: 0 <= i < j < |fs| ==> !(fs[i].userId == fs[j].userId && fs[i].bookId == fs[j].bookId)
  }

  /** `getUserFavorites`: the user's rows, in stored order. */
  function UserFavorites(fs: seq<UserFavorite>, userId: string): (r: seq<UserFavorite>)
    ensures forall f :: f in r <==> f in fs && f.userId == userId
    ensures IsSubsequence(r, fs)
  {
    var keep := (f: UserFavorite) => f.userId == userId;
    FilterIsSubsequence(fs, keep);
    Filter(fs, keep)
  }

  /** `isFavorite`: some row pairs the user with the book. */
  function IsFavorite(fs: seq<UserFavorite>, userId: string, bookId: string): (r: bool)
    ensures r <==> exists i :: 0 <= i < |fs| && IsPair(fs[i], userId, bookId)
  {
    var mine := UserFavorites(fs, userId);
    var r := Any(mine, (f: UserFavorite) => f.bookId == bookId);
    assert r ==> exists i :: 0 <= i < |fs| && IsPair(fs[i], userId, bookId) by {
      if r {
        var k :| 0 <= k < |mine| && mine[k].bookId == bookId;
        assert mine[k] in fs;
      }
    }
    assert (exists i :: 0 <= i < |fs| && IsPair(fs[i], userId, bookId)) ==> r by {
      if i :| 0 <= i < |fs| && IsPair(fs[i], userId, bookId) {
        assert fs[i] in mine;
      }
    }
    r
  }

  /** The position of the row pairing the user with the book, found by `allFavorites.find`. */
  function FindFavorite(fs: seq<UserFavorite>, userId: string, bookId: string): Option<nat>
  {
    FindIndex(fs, (f: UserFavorite) => IsPair(f, userId, bookId))
  }

  /** What `addToFavorites` returns, with the list it leaves stored. */
  datatype Addition = Addition(favorite: UserFavorite, favorites: seq<UserFavorite>)

  /**
   * `addToFavorites`: an existing row for the pair is returned and nothing is written;
   * otherwise a new row with the fresh id and the current instant is appended.
   */
  function AddFavorite(fs: seq<UserFavorite>, userId: string, bookId: string, freshId: string, now: Instant)
    : (r: Addition)
    ensures IsPair(r.favorite, userId, bookId) && r.favorite in r.favorites
    ensures IsFavorite(fs, userId, bookId) ==> r.favorites == fs && r.favorite in fs
    ensures !IsFavorite(fs, userId, bookId) ==>
              r.favorites == fs + [r.favorite] && r.favorite == UserFavorite(freshId, userId, bookId, now)
  {
    match FindFavorite(fs, userId, bookId)
    case Some(i) => Addition(fs[i], fs)
    case None =>
      var f := UserFavorite(freshId, userId, bookId, now);
      Addition(f, fs + [f])
  }

  /** `removeFromFavorites`: every row of the pair dropped; `None` (nothing written) when there was none. */
  function RemoveFavorite(fs: seq<UserFavorite>, userId: string, bookId: string): (r: Option<seq<UserFavorite>>)
    ensures r.None? <==> !IsFavorite(fs, userId, bookId)
    ensures r.Some? ==> (forall f :: f in r.value <==> f in fs && !IsPair(f, userId, bookId))
                        && IsSubsequence(r.value, fs) && |r.value| < |fs|
  {
    KeepOnly(fs, (f: UserFavorite) => !IsPair(f, userId, bookId))
  }

  /** What `toggleFavorite` returns, with the list it leaves stored. */
  datatype Toggled = Toggled(isFavorite: bool, favorite: Option<UserFavorite>, favorites: seq<UserFavorite>)

  /** `toggleFavorite`: removes the pair when it is a favourite, adds it otherwise. */
  function ToggleFavorite(fs: seq<UserFavorite>, userId: string, bookId: string, freshId: string, now: Instant)
    : (r: Toggled)
    ensures r.isFavorite == !IsFavorite(fs, userId, bookId) == IsFavorite(r.favorites, userId, bookId)
    ensures r.isFavorite <==> r.favorite.Some?
    ensures r.favorite.Some? ==> r.favorite.value == UserFavorite(freshId, userId, bookId, now)
    ensures r.favorites == if IsFavorite(fs, userId, bookId) then RemoveFavorite(fs, userId, bookId).value
                           else AddFavorite(fs, userId, bookId, freshId, now).favorites
  {
    if IsFavorite(fs, userId, bookId) then
      var kept := RemoveFavorite(fs, userId, bookId).value;
      assert !IsFavorite(kept, userId, bookId) by {
        forall i | 0 <= i < |kept| ensures !IsPair(kept[i], userId, bookId) {
          assert kept[i] in kept;
        }
      }
      Toggled(false, None, kept)
    else
      var added := AddFavorite(fs, userId, bookId, freshId, now);
      assert added.favorites[|fs|] == added.favorite;
      Toggled(true, Some(added.favorite), added.favorites)
  }

  /** `getFavoriteBookIds`: the book ids of the user's rows, in stored order. */
  function FavoriteBookIds(fs: seq<UserFavorite>, userId: string): (r: seq<string>)
    ensures forall b :: b in r <==> IsFavorite(fs, userId, b)
    ensures |r| == FavoritesCount(fs, userId)
  {
    var mine := UserFavorites(fs, userId);
    var r := Map(mine, (f: UserFavorite) => f.bookId);
    forall b ensures b in r <==> IsFavorite(fs, userId, b) {
      if b in r {
        var k :| 0 <= k < |r| && r[k] == b;
        assert mine[k] in fs;
      }
      if i :| 0 <= i < |fs| && IsPair(fs[i], userId, b) {
        assert fs[i] in mine;
        var k :| 0 <= k < |mine| && mine[k] == fs[i];
        assert r[k] == b;
      }
    }
    r
  }

  /** `getFavoritesCount`: the number of the user's rows. */
  function FavoritesCount(fs: seq<UserFavorite>, userId: string): (n: nat)
    ensures n <= |fs|
    ensures n == 0 <==> forall i :: 0 <= i < |fs| ==> fs[i].userId != userId
    ensures n == |UserFavorites(fs, userId)|
  {
    var mine := UserFavorites(fs, userId);
    assert (exists i :: 0 <= i < |fs| && fs[i].userId == userId) ==> mine != [] by {
      if i :| 0 <= i < |fs| && fs[i].userId == userId {
        assert fs[i] in mine;
      }
    }
    |mine|
  }

  /** `clearUserFavorites`: the rows of every other user, in stored order. */
  function ClearUser(fs: seq<UserFavorite>, userId: string): (r: seq<UserFavorite>)
    ensures forall f :: f in r <==> f in fs && f.userId != userId
    ensures IsSubsequence(r, fs)
  {
    var keep := (f: UserFavorite) => f.userId != userId;
    FilterIsSubsequence(fs, keep);
    Filter(fs, keep)
  }

  /** Clearing a user leaves that user without favourites and every other user's list untouched. */
  lemma ClearUserIsolated(fs: seq<UserFavorite>, userId: string, other: string)
    requires other != userId
    ensures FavoritesCount(ClearUser(fs, userId), userId) == 0
    ensures UserFavorites(ClearUser(fs, userId), other) == UserFavorites(fs, other)
  {
    FilterOfFilter(fs, (f: UserFavorite) => f.userId != userId, (f: UserFavorite) => f.userId == other);
  }

  /** The user's rows and the rows that clearing the user keeps make up the whole table. */
  lemma {:induction false} ClearUserRemovesTheCount(fs: seq<UserFavorite>, userId: string)
    ensures |ClearUser(fs, userId)| + FavoritesCount(fs, userId) == |fs|
  {
    FilterSplitsLength(fs, (f: UserFavorite) => f.userId != userId, (f: UserFavorite) => f.userId == userId);
  }

  /** Adding a pair that is already a favourite changes nothing: the add is idempotent. */
  lemma AddIsIdempotent(fs: seq<UserFavorite>, userId: string, bookId: string,
                        id1: string, now1: Instant, id2: string, now2: Instant)
    ensures var once := AddFavorite(fs, userId, bookId, id1, now1);
      AddFavorite(once.favorites, userId, bookId, id2, now2) == once
  {
    var once := AddFavorite(fs, userId, bookId, id1, now1);
    var twice := AddFavorite(once.favorites, userId, bookId, id2, now2);
    var i := FindFavorite(once.favorites, userId, bookId).value;
    if IsFavorite(fs, userId, bookId) {
      var j := FindFavorite(fs, userId, bookId).value;
      assert i == j;
    } else {
      assert i == |fs|;
    }
  }

  /** Adding keeps every pair recorded at most once. */
  lemma AddKeepsPairsUnique(fs: seq<UserFavorite>, userId: string, bookId: string, freshId: string, now: Instant)
    requires PairsUnique(fs)
    ensures PairsUnique(AddFavorite(fs, userId, bookId, freshId, now).favorites)
  {
  }

  /** Dropping rows, whichever they are, keeps every pair recorded at most once. */
  lemma {:induction false} FilterKeepsPairsUnique(fs: seq<UserFavorite>, p: UserFavorite -> bool)
    requires PairsUnique(fs)
    ensures PairsUnique(Filter(fs, p))
  {
    if fs != [] {
      var tail := fs[1..];
      assert PairsUnique(tail) by {
        forall i, j | 0 <= i < j < |tail|
          ensures !(tail[i].userId == tail[j].userId && tail[i].bookId == tail[j].bookId)
        {
          assert tail[i] == fs[i + 1] && tail[j] == fs[j + 1];
        }
      }
      FilterKeepsPairsUnique(tail, p);
      if p(fs[0]) {
        var rest := Filter(tail, p);
        var r := [fs[0]] + rest;
        forall i, j | 0 <= i < j < |r| ensures !(r[i].userId == r[j].userId && r[i].bookId == r[j].bookId) {
          assert r[j] == rest[j - 1];
          if i == 0 {
            assert rest[j - 1] in tail;
            var k :| 0 <= k < |tail| && tail[k] == r[j];
            assert fs[k + 1] == r[j];
          } else {
            assert r[i] == rest[i - 1];
          }
        }
      }
    }
  }

  /** Removing a pair keeps every pair recorded at most once. */
  lemma RemoveKeepsPairsUnique(fs: seq<UserFavorite>, userId: string, bookId: string)
    requires PairsUnique(fs)
    ensures PairsUnique(RemoveFavorite(fs, userId, bookId).GetOr(fs))
  {
    FilterKeepsPairsUnique(fs, (f: UserFavorite) => !IsPair(f, userId, bookId));
  }

  /** Clearing a user keeps every pair recorded at most once. */
  lemma ClearKeepsPairsUnique(fs: seq<UserFavorite>, userId: string)
    requires PairsUnique(fs)
    ensures PairsUnique(ClearUser(fs, userId))
  {
    FilterKeepsPairsUnique(fs, (f: UserFavorite) => f.userId != userId);
  }

  /** Removing a pair that was just added, and was not a favourite before, restores the list. */
  lemma {:induction false} RemoveUndoesAdd(fs: seq<UserFavorite>, userId: string, bookId: string, freshId: string, now: Instant)
    requires !IsFavorite(fs, userId, bookId)
    ensures RemoveFavorite(AddFavorite(fs, userId, bookId, freshId, now).favorites, userId, bookId) == Some(fs)
  {
    var f := UserFavorite(freshId, userId, bookId, now);
    var grown := AddFavorite(fs, userId, bookId, freshId, now).favorites;
    assert grown == fs + [f];
    assert forall x :: x in fs ==> !IsPair(x, userId, bookId);
    FilterAppend(fs, [f], (g: UserFavorite) => !IsPair(g, userId, bookId));
    FilterKeepsAll(fs, (g: UserFavorite) => !IsPair(g, userId, bookId));
    assert Filter([f], (g: UserFavorite) => !IsPair(g, userId, bookId)) == [];
    assert Filter(grown, (g: UserFavorite) => !IsPair(g, userId, bookId)) == fs;
  }

  /** Toggling twice from a state where the pair is not a favourite restores the list exactly. */
  lemma ToggleTwiceRestores(fs: seq<UserFavorite>, userId: string, bookId: string,
                            id1: string, now1: Instant, id2: string, now2: Instant)
    requires !IsFavorite(fs, userId, bookId)
    ensures var once := ToggleFavorite(fs, userId, bookId, id1, now1);
      ToggleFavorite(once.favorites, userId, bookId, id2, now2) == Toggled(false, None, fs)
  {
    RemoveUndoesAdd(fs, userId, bookId, id1, now1);
  }

  /** The key 'user_favorites'. */
  class FavoritesStore {
    /** The stored rows; an absent key reads as the empty list. */
    var favorites: seq<UserFavorite>

    constructor ()
      ensures favorites == []
    {
      favorites := [];
    }

    /** `addToFavorites`. */
    method AddToFavorites(userId: string, bookId: string, freshId: string, now: Instant) returns (favorite: UserFavorite)
      modifies this
      ensures var a := AddFavorite(old(favorites), userId, bookId, freshId, now);
        favorite == a.favorite && favorites == a.favorites
      ensures IsFavorite(favorites, userId, bookId)
      ensures old(PairsUnique(favorites)) ==> PairsUnique(favorites)
    {
      var all := favorites;
      var existing := FindFavorite(all, userId, bookId);
      if existing.Some? {
        return all[existing.value];
      }
      favorite := UserFavorite(freshId, userId, bookId, now);
      all := all + [favorite];
      favorites := all;
      if old(PairsUnique(favorites)) {
        AddKeepsPairsUnique(old(favorites), userId, bookId, freshId, now);
      }
    }

    /** `removeFromFavorites`: true when some row was dropped. */
    method RemoveFromFavorites(userId: string, bookId: string) returns (removed: bool)
      modifies this
      ensures removed <==> old(IsFavorite(favorites, userId, bookId))
      ensures favorites == RemoveFavorite(old(favorites), userId, bookId).GetOr(old(favorites))
      ensures !IsFavorite(favorites, userId, bookId)
      ensures old(PairsUnique(favorites)) ==> PairsUnique(favorites)
    {
      if PairsUnique(favorites) {
        RemoveKeepsPairsUnique(favorites, userId, bookId);
      }
      var kept := KeepOnly(favorites, (f: UserFavorite) => !IsPair(f, userId, bookId));
      if kept.None? {
        return false;
      }
      favorites := kept.value;
      removed := true;
      forall i | 0 <= i < |favorites| ensures !IsPair(favorites[i], userId, bookId) {
        assert favorites[i] in favorites;
      }
    }

    /** `toggleFavorite`. */
    method Toggle(userId: string, bookId: string, freshId: string, now: Instant)
      returns (isFavorite: bool, favorite: Option<UserFavorite>)
      modifies this
      ensures var t := ToggleFavorite(old(favorites), userId, bookId, freshId, now);
        isFavorite == t.isFavorite && favorite == t.favorite && favorites == t.favorites
      ensures old(PairsUnique(favorites)) ==> PairsUnique(favorites)
    {
      if IsFavorite(favorites, userId, bookId) {
        var _ := RemoveFromFavorites(userId, bookId);
        return false, None;
      } else {
        var f := AddToFavorites(userId, bookId, freshId, now);
        return true, Some(f);
      }
    }

    /** `clearUserFavorites`. */
    method ClearUserFavorites(userId: string)
      modifies this
      ensures favorites == ClearUser(old(favorites), userId)
      ensures old(PairsUnique(favorites)) ==> PairsUnique(favorites)
    {
      if PairsUnique(favorites) {
        ClearKeepsPairsUnique(favorites, userId);
      }
      favorites := Filter(favorites, (f: UserFavorite) => f.userId != userId);
    }
  }
}
