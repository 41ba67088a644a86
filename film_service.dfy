/** FilmService: the gate in front of the film store (field rules, then the
    genre and MPA catalogs), the like operations guarded by a user lookup,
    the popularity ranking and the read-side DTO.  The genre and MPA tables
    it queries are the two maps of a Catalogs value. */
module Films {

  import opened Model
  import opened Validation
  import opened Ranking
  import FilmMemory
  import UserMemory

  // ---- catalog lookups ----

  /** getGenreById: the catalog row as a DTO, or NotFound. */
  function GetGenreById(catalogs: Catalogs, id: int): (r: Result<GenreDto>)
    ensures r.Ok? <==> id in catalogs.genres
    ensures r.Ok? ==> r.value == GenreDto(id, Some(catalogs.genres[id]))
    ensures r.Err? ==> r.error == NotFound(GenreEntity, Some(id))
  {
    if id in catalogs.genres then Ok(GenreDto(id, Some(catalogs.genres[id])))
    else Err(NotFound(GenreEntity, Some(id)))
  }

  /** getMpaById: the catalog row as a DTO, or NotFound. */
  function GetMpaById(catalogs: Catalogs, id: int): (r: Result<MpaDto>)
    ensures r.Ok? <==> id in catalogs.mpa
    ensures r.Ok? ==> r.value == MpaDto(Some(id), Some(catalogs.mpa[id]))
    ensures r.Err? ==> r.error == NotFound(MpaEntity, Some(id))
  {
    if id in catalogs.mpa then Ok(MpaDto(Some(id), Some(catalogs.mpa[id])))
    else Err(NotFound(MpaEntity, Some(id)))
  }

  /** getAllGenres: SELECT ... ORDER BY id, every row once. */
  function AllGenres(catalogs: Catalogs): (r: seq<GenreDto>)
    ensures |r| == |catalogs.genres|
    ensures forall i, j :: 0 <= i < j < |r| ==> r[i].id < r[j].id
    ensures forall i :: 0 <= i < |r| ==> GetGenreById(catalogs, r[i].id) == Ok(r[i])
    ensures forall id :: id in catalogs.genres ==> GetGenreById(catalogs, id).value in r
  {
    var rows := map id | id in catalogs.genres :: GenreDto(id, Some(catalogs.genres[id]));
    assert rows.Keys == catalogs.genres.Keys;
    RowsInIdOrder(rows);
    ValuesInKeyOrder(rows)
  }

  /** getAllMpa: SELECT ... ORDER BY id, every row once. */
  function AllMpa(catalogs: Catalogs): (r: seq<MpaDto>)
    ensures |r| == |catalogs.mpa|
    ensures forall i :: 0 <= i < |r| ==> r[i].id.Some?
    ensures forall i, j :: 0 <= i < j < |r| ==> r[i].id.value < r[j].id.value
    ensures forall i :: 0 <= i < |r| ==> GetMpaById(catalogs, r[i].id.value) == Ok(r[i])
    ensures forall id :: id in catalogs.mpa ==> GetMpaById(catalogs, id).value in r
  {
    var rows := map id | id in catalogs.mpa :: MpaDto(Some(id), Some(catalogs.mpa[id]));
    assert rows.Keys == catalogs.mpa.Keys;
    MpaRowsInIdOrder(rows);
    ValuesInKeyOrder(rows)
  }

  /** Rows keyed by their own id, listed by key, come out by ascending id
      and each exactly once. */
  lemma RowsInIdOrder(rows: map<int, GenreDto>)
    requires forall id :: id in rows ==> rows[id].id == id
    ensures forall i, j :: 0 <= i < j < |ValuesInKeyOrder(rows)| ==>
              ValuesInKeyOrder(rows)[i].id < ValuesInKeyOrder(rows)[j].id
    ensures forall id :: id in rows ==> rows[id] in ValuesInKeyOrder(rows)
  {
    EveryValueListed(rows);
  }

  lemma MpaRowsInIdOrder(rows: map<int, MpaDto>)
    requires forall id :: id in rows ==> rows[id].id == Some(id)
    ensures forall i :: 0 <= i < |ValuesInKeyOrder(rows)| ==> ValuesInKeyOrder(rows)[i].id.Some?
    ensures forall i, j :: 0 <= i < j < |ValuesInKeyOrder(rows)| ==>
              ValuesInKeyOrder(rows)[i].id.value < ValuesInKeyOrder(rows)[j].id.value
    ensures forall id :: id in rows ==> rows[id] in ValuesInKeyOrder(rows)
  {
    EveryValueListed(rows);
  }

  // ---- reference checks ----

  /** Every reference of the film names a catalog row. */
  predicate ReferencesExist(film: Film, catalogs: Catalogs)
  {
    (film.mpaId.None? || film.mpaId.value in catalogs.mpa) && GenreSet(film) <= catalogs.genres.Keys
  }

  /** validateMpaAndGenres: the MPA id first, then each genre id in the hash
      set's (unspecified) order; the first miss is a NotFound. */
  method ValidateMpaAndGenres(film: Film, catalogs: Catalogs) returns (o: Outcome)
    ensures o == Pass <==> ReferencesExist(film, catalogs)
    ensures film.mpaId.Some? && film.mpaId.value !in catalogs.mpa ==> o == Fail(NotFound(MpaEntity, film.mpaId))
    ensures o.Fail? && (film.mpaId.None? || film.mpaId.value in catalogs.mpa) ==>
              exists g :: g in GenreSet(film) && g !in catalogs.genres && o == Fail(NotFound(GenreEntity, Some(g)))
  {
    if film.mpaId.Some? {
      var mpa := GetMpaById(catalogs, film.mpaId.value);
      if mpa.Err? {
        return Fail(NotFound(MpaEntity, film.mpaId));
      }
    }
    if film.genreIds.Some? && film.genreIds.value != {} {
      var rest := film.genreIds.value;
      while rest != {}
        invariant rest <= film.genreIds.value
        invariant forall g :: g in film.genreIds.value && g !in rest ==> g in catalogs.genres
        decreases rest
      {
        HasElement(rest);
        var g :| g in rest;
        var genre := GetGenreById(catalogs, g);
        if genre.Err? {
          return Fail(NotFound(GenreEntity, Some(g)));
        }
        rest := rest - {g};
      }
    }
    assert GenreSet(film) <= catalogs.genres.Keys by {
      forall g | g in GenreSet(film) ensures g in catalogs.genres.Keys {
        assert g in film.genreIds.value;
      }
    }
    return Pass;
  }

  // ---- the read-side view ----

  /** gs lists one DTO per id of ids, in ascending id order, each named as
      the catalog names it. */
  predicate GenresRendered(gs: seq<Option<GenreDto>>, ids: set<int>, names: map<int, string>)
  {
    && |gs| == |ids|
    && (forall i :: 0 <= i < |gs| ==>
          gs[i].Some? && gs[i].value.id in ids && gs[i].value.id in names
          && gs[i].value.name == Some(names[gs[i].value.id]))
    && (forall i, j :: 0 <= i < j < |gs| ==> gs[i].value.id < gs[j].value.id)
    && (forall g :: g in ids ==> exists i :: 0 <= i < |gs| && gs[i].value.id == g)
  }

  /** The genre loop of toDto over the ids in ascending order: each id looked
      up in turn, the first miss a NotFound, each DTO added to the
      insertion-ordered set (where it is always new, the ids being distinct). */
  method RenderGenres(ids: seq<int>, catalogs: Catalogs) returns (r: Result<seq<Option<GenreDto>>>)
    requires StrictlyIncreasing(ids)
    ensures r.Ok? <==> forall i :: 0 <= i < |ids| ==> ids[i] in catalogs.genres
    ensures r.Ok? ==> |r.value| == |ids|
    ensures r.Ok? ==> forall i :: 0 <= i < |ids| ==> ids[i] in catalogs.genres && r.value[i] == Some(GenreDto(ids[i], Some(catalogs.genres[ids[i]])))
    ensures r.Err? ==> exists i :: 0 <= i < |ids| && ids[i] !in catalogs.genres && r.error == NotFound(GenreEntity, Some(ids[i]))
                                   && forall j :: 0 <= j < i ==> ids[j] in catalogs.genres
  {
    var genres: seq<Option<GenreDto>> := [];
    for i := 0 to |ids|
      invariant |genres| == i
      invariant forall j :: 0 <= j < i ==> ids[j] in catalogs.genres
      invariant forall j :: 0 <= j < i ==> genres[j] == Some(GenreDto(ids[j], Some(catalogs.genres[ids[j]])))
    {
      var found := GetGenreById(catalogs, ids[i]);
      if found.Err? {
        return Err(found.error);
      }
      if Some(found.value) !in genres {
        genres := genres + [Some(found.value)];
      }
    }
    return Ok(genres);
  }

  /** Rendering the ascending listing of a genre set is rendering the set. */
  lemma RenderedInIdOrder(gs: seq<Option<GenreDto>>, ids: set<int>, names: map<int, string>)
    requires |gs| == |SortedIds(ids)|
    requires forall i :: 0 <= i < |gs| ==>
               SortedIds(ids)[i] in names && gs[i] == Some(GenreDto(SortedIds(ids)[i], Some(names[SortedIds(ids)[i]])))
    ensures GenresRendered(gs, ids, names)
    ensures ids <= names.Keys
  {
    var sorted := SortedIds(ids);
    forall g | g in ids ensures g in names {
      assert sorted[IndexOf(sorted, g)] == g;
    }
    forall g | g in ids ensures exists i :: 0 <= i < |gs| && gs[i].value.id == g {
      assert gs[IndexOf(sorted, g)].value.id == g;
    }
  }

  /** The first missing id of the ascending listing is the least missing id. */
  lemma FirstMissIsLeast(ids: set<int>, names: map<int, string>, i: int)
    requires 0 <= i < |SortedIds(ids)|
    requires forall j :: 0 <= j < i ==> SortedIds(ids)[j] in names
    ensures SortedIds(ids)[i] in ids
    ensures forall h :: h in ids && h < SortedIds(ids)[i] ==> h in names
  {
    var sorted := SortedIds(ids);
    forall h | h in ids && h < sorted[i] ensures h in names {
      assert IndexOf(sorted, h) < i;
    }
  }

  /** The genre part of toDto: the film's genre ids in ascending order, each
      looked up; the least missing id is the NotFound. */
  method RenderFilmGenres(film: Film, catalogs: Catalogs) returns (r: Result<seq<Option<GenreDto>>>)
    ensures r.Ok? <==> GenreSet(film) <= catalogs.genres.Keys
    ensures r.Err? ==> exists g :: && g in GenreSet(film) && g !in catalogs.genres
                                   && r.error == NotFound(GenreEntity, Some(g))
                                   && forall h :: h in GenreSet(film) && h < g ==> h in catalogs.genres
    ensures r.Ok? ==> GenresRendered(r.value, GenreSet(film), catalogs.genres)
  {
    var ids: seq<int> := [];
    if film.genreIds.Some? && film.genreIds.value != {} {
      ids := SortedIds(film.genreIds.value);
    }
    assert ids == SortedIds(GenreSet(film));
    r := RenderGenres(ids, catalogs);
    if r.Err? {
      var i :| 0 <= i < |ids| && ids[i] !in catalogs.genres && r.error == NotFound(GenreEntity, Some(ids[i]))
                && forall j :: 0 <= j < i ==> ids[j] in catalogs.genres;
      FirstMissIsLeast(GenreSet(film), catalogs.genres, i);
      assert ids[i] in GenreSet(film);
      return;
    }
    RenderedInIdOrder(r.value, GenreSet(film), catalogs.genres);
  }

  /** toDto: scalars and likes copied; the MPA and each genre looked up in
      the catalog (NotFound on a miss, MPA first, then the genres in
      ascending id order); genres rendered in ascending id order, one DTO
      per id. */
  method ToDto(film: Film, catalogs: Catalogs) returns (r: Result<FilmDto>)
    ensures r.Ok? <==> ReferencesExist(film, catalogs)
    ensures film.mpaId.Some? && film.mpaId.value !in catalogs.mpa ==> r == Err(NotFound(MpaEntity, film.mpaId))
    ensures r.Err? && (film.mpaId.None? || film.mpaId.value in catalogs.mpa) ==>
              exists g :: && g in GenreSet(film) && g !in catalogs.genres
                          && r == Err(NotFound(GenreEntity, Some(g)))
                          && forall h :: h in GenreSet(film) && h < g ==> h in catalogs.genres
    ensures r.Ok? ==>
              && r.value.id == film.id && r.value.name == film.name && r.value.description == film.description
              && r.value.releaseDate == film.releaseDate && r.value.duration == film.duration
              && r.value.likes == film.likes
              && r.value.mpa == (if film.mpaId.Some? then Some(MpaDto(film.mpaId, Some(catalogs.mpa[film.mpaId.value]))) else None)
              && GenresRendered(r.value.genres, GenreSet(film), catalogs.genres)
  {
    var mpa: Option<MpaDto> := None;
    if film.mpaId.Some? {
      var found := GetMpaById(catalogs, film.mpaId.value);
      if found.Err? {
        return Err(found.error);
      }
      mpa := Some(found.value);
    }
    var genres := RenderFilmGenres(film, catalogs);
    if genres.Err? {
      return Err(genres.error);
    }
    r := Ok(FilmDto(film.id, film.name, film.description, film.releaseDate, film.duration, film.likes, mpa, genres.value));
  }

  // ---- popularity ----

  /** The ranking key: how many users like the film. */
  function LikeCount(f: Film): int
  {
    |f.likes|
  }

  /** getPopular over the films in findAll order: a stable sort by like
      count, largest first, cut to count. */
  function Popular(films: seq<Film>, count: int): (r: seq<Film>)
    requires count > 0
    ensures |r| == if count < |films| then count else |films|
    ensures r <= SortDesc(films, LikeCount)
  {
    var sorted := SortDesc(films, LikeCount);
    assert |sorted| == |multiset(sorted)| == |multiset(films)| == |films|;
    Take(sorted, count)
  }

  lemma {:induction false} WithKeyOfPrefix<T>(s: seq<T>, n: nat, key: T -> int, k: int)
    requires n <= |s|
    ensures WithKey(s[..n], key, k) <= WithKey(s, key, k)
  {
    if n > 0 {
      assert s[..n][1..] == s[1..][..n - 1];
      WithKeyOfPrefix(s[1..], n - 1, key, k);
    }
  }

  /** In a list sorted largest first, nothing after the first n elements
      outranks anything among them. */
  lemma PrefixDominates<T>(s: seq<T>, n: nat, key: T -> int)
    requires NonIncreasing(s, key) && n <= |s|
    ensures forall f, g :: f in s[..n] && g in multiset(s) - multiset(s[..n]) ==> key(f) >= key(g)
  {
    assert s == s[..n] + s[n..];
    assert multiset(s) - multiset(s[..n]) == multiset(s[n..]);
    forall f, g | f in s[..n] && g in multiset(s) - multiset(s[..n]) ensures key(f) >= key(g) {
      assert g in s[n..];
      var i :| 0 <= i < n && s[..n][i] == f;
      var j :| 0 <= j < |s[n..]| && s[n..][j] == g;
      assert s[i] == f && s[n + j] == g;
    }
  }

  /** getPopular ranks by like count: the counts never increase down the
      list, and every film it returns comes from findAll, none more often
      than there. */
  lemma PopularIsOrdered(films: seq<Film>, count: int)
    requires count > 0
    ensures NonIncreasing(Popular(films, count), LikeCount)
    ensures multiset(Popular(films, count)) <= multiset(films)
  {
    var sorted := SortDesc(films, LikeCount);
    var r := Popular(films, count);
    var n := |r|;
    assert sorted == r + sorted[n..];
    assert NonIncreasing(r, LikeCount) by {
      forall i, j | 0 <= i < j < n ensures LikeCount(r[i]) >= LikeCount(r[j]) {
        assert r[i] == sorted[i] && r[j] == sorted[j];
      }
    }
  }

  /** The sort is stable: films with equal like counts keep their findAll
      order, so those returned are a prefix of that count's films. */
  lemma PopularIsStable(films: seq<Film>, count: int, k: int)
    requires count > 0
    ensures WithKey(Popular(films, count), LikeCount, k) <= WithKey(films, LikeCount, k)
  {
    var sorted := SortDesc(films, LikeCount);
    var n := |Popular(films, count)|;
    assert Popular(films, count) == sorted[..n];
    WithKeyOfPrefix(sorted, n, LikeCount, k);
    SortDescStable(films, LikeCount, k);
  }

  /** No film left out of getPopular has more likes than one returned. */
  lemma PopularKeepsTheMostLiked(films: seq<Film>, count: int)
    requires count > 0
    ensures forall f, g :: f in Popular(films, count) && g in multiset(films) - multiset(Popular(films, count))
              ==> LikeCount(f) >= LikeCount(g)
  {
    var sorted := SortDesc(films, LikeCount);
    var n := |Popular(films, count)|;
    assert Popular(films, count) == sorted[..n];
    PrefixDominates(sorted, n, LikeCount);
  }

  // ---- the service ----

  class FilmService {
    const filmStorage: FilmMemory.InMemoryFilmStorage
    const userStorage: UserMemory.InMemoryUserStorage
    const catalogs: Catalogs

    ghost predicate Valid()
      reads this, filmStorage, userStorage
    {
      filmStorage.Valid() && userStorage.Valid()
    }

    constructor (films: FilmMemory.InMemoryFilmStorage, users: UserMemory.InMemoryUserStorage, catalogs: Catalogs)
      ensures filmStorage == films && userStorage == users && this.catalogs == catalogs
    {
      filmStorage := films;
      userStorage := users;
      this.catalogs := catalogs;
    }

    /** create: field rules, then catalog references, then save; a film
        rejected by either gate never reaches the store. */
    method Create(film: Film) returns (r: Result<Film>)
      requires Valid()
      modifies filmStorage
      ensures Valid()
      ensures ValidateFilm(film).Fail? ==> r == Err(ValidateFilm(film).error) && unchanged(filmStorage)
      ensures ValidateFilm(film) == Pass && !ReferencesExist(film, catalogs) ==>
                r.Err? && r.error.NotFound? && r.error.entity in {MpaEntity, GenreEntity} && unchanged(filmStorage)
      ensures ValidateFilm(film) == Pass && film.mpaId.Some? && film.mpaId.value !in catalogs.mpa ==>
                r == Err(NotFound(MpaEntity, film.mpaId))
      ensures ValidateFilm(film) == Pass && (film.mpaId.None? || film.mpaId.value in catalogs.mpa) && !ReferencesExist(film, catalogs) ==>
                exists g :: g in GenreSet(film) && g !in catalogs.genres && r == Err(NotFound(GenreEntity, Some(g)))
      ensures ValidateFilm(film) == Pass && ReferencesExist(film, catalogs) ==>
                && r == Ok(film.(id := Some(old(filmStorage.nextId))))
                && filmStorage.films == old(filmStorage.films)[old(filmStorage.nextId) := r.value]
                && filmStorage.nextId == old(filmStorage.nextId) + 1
    {
      var verdict := ValidateFilm(film);
      if verdict.Fail? {
        return Err(verdict.error);
      }
      var refs := ValidateMpaAndGenres(film, catalogs);
      if refs.Fail? {
        return Err(refs.error);
      }
      r := filmStorage.Save(film);
    }

    /** update: the same two gates, then the store's update (NotFound for an
        id it does not hold). */
    method Update(film: Film) returns (r: Result<Film>)
      requires Valid() && film.id.Some?
      modifies filmStorage
      ensures Valid() && filmStorage.nextId == old(filmStorage.nextId)
      ensures ValidateFilm(film).Fail? ==> r == Err(ValidateFilm(film).error) && unchanged(filmStorage)
      ensures ValidateFilm(film) == Pass && !ReferencesExist(film, catalogs) ==>
                r.Err? && r.error.NotFound? && r.error.entity in {MpaEntity, GenreEntity} && unchanged(filmStorage)
      ensures ValidateFilm(film) == Pass && film.mpaId.Some? && film.mpaId.value !in catalogs.mpa ==>
                r == Err(NotFound(MpaEntity, film.mpaId))
      ensures ValidateFilm(film) == Pass && (film.mpaId.None? || film.mpaId.value in catalogs.mpa) && !ReferencesExist(film, catalogs) ==>
                exists g :: g in GenreSet(film) && g !in catalogs.genres && r == Err(NotFound(GenreEntity, Some(g)))
      ensures ValidateFilm(film) == Pass && ReferencesExist(film, catalogs) && film.id.value !in old(filmStorage.films) ==>
                r == Err(NotFound(FilmEntity, film.id)) && filmStorage.films == old(filmStorage.films)
      ensures ValidateFilm(film) == Pass && ReferencesExist(film, catalogs) && film.id.value in old(filmStorage.films) ==>
                r == Ok(film) && filmStorage.films == old(filmStorage.films)[film.id.value := film]
    {
      var verdict := ValidateFilm(film);
      if verdict.Fail? {
        return Err(verdict.error);
      }
      var refs := ValidateMpaAndGenres(film, catalogs);
      if refs.Fail? {
        return Err(refs.error);
      }
      r := filmStorage.Update(film);
    }

    /** addLike: an unknown user is NotFound before any like set is touched. */
    method AddLike(filmId: int, userId: int) returns (o: Outcome)
      requires Valid()
      modifies filmStorage
      ensures Valid() && filmStorage.nextId == old(filmStorage.nextId)
      ensures userId !in userStorage.users ==> o == Fail(NotFound(UserEntity, Some(userId))) && unchanged(filmStorage)
      ensures userId in userStorage.users && filmId !in old(filmStorage.films) ==>
                o == Fail(NotFound(FilmEntity, Some(filmId))) && filmStorage.films == old(filmStorage.films)
      ensures userId in userStorage.users && filmId in old(filmStorage.films) ==>
                && o == Pass
                && filmStorage.films == old(filmStorage.films)[filmId :=
                     old(filmStorage.films)[filmId].(likes := old(filmStorage.films)[filmId].likes + {userId})]
    {
      var user := userStorage.FindById(userId);
      if user.Err? {
        return Fail(user.error);
      }
      o := filmStorage.AddLike(filmId, userId);
    }

    /** removeLike: the same user check, then the store's removeLike. */
    method RemoveLike(filmId: int, userId: int) returns (o: Outcome)
      requires Valid()
      modifies filmStorage
      ensures Valid() && filmStorage.nextId == old(filmStorage.nextId)
      ensures userId !in userStorage.users ==> o == Fail(NotFound(UserEntity, Some(userId))) && unchanged(filmStorage)
      ensures userId in userStorage.users && filmId !in old(filmStorage.films) ==>
                o == Fail(NotFound(FilmEntity, Some(filmId))) && filmStorage.films == old(filmStorage.films)
      ensures userId in userStorage.users && filmId in old(filmStorage.films) ==>
                && o == Pass
                && filmStorage.films == old(filmStorage.films)[filmId :=
                     old(filmStorage.films)[filmId].(likes := old(filmStorage.films)[filmId].likes - {userId})]
    {
      var user := userStorage.FindById(userId);
      if user.Err? {
        return Fail(user.error);
      }
      o := filmStorage.RemoveLike(filmId, userId);
    }

    /** getPopular(count) over the store's findAll; the ranking lemmas about
        Popular apply to it. */
    function GetPopular(count: int): (r: seq<Film>)
      requires Valid() && count > 0
      reads this, filmStorage, userStorage
      ensures r == Popular(filmStorage.FindAll(), count)
      ensures |r| == if count < |filmStorage.films| then count else |filmStorage.films|
      ensures forall f :: f in r ==> f.id.Some? && f.id.value in filmStorage.films && filmStorage.films[f.id.value] == f
    {
      var all := filmStorage.FindAll();
      var r := Popular(all, count);
      forall f | f in r ensures f in all {
        PopularIsOrdered(all, count);
        assert f in multiset(r);
      }
      r
    }
  }
}
