/** FilmDbStorage: the films table, the film_genres and likes edge tables,
    and the two row folds that rebuild films from query results.  The
    tables are a map from id to the film's columns and two sets of
    (film id, other id) pairs; the rows a query returns are a parameter,
    constrained to be what the query selects, in any order. */
module FilmDb {

  import opened Model
  import opened Ranking

  /** The columns of a films row. */
  datatype FilmRecord = FilmRecord(name: Option<string>, description: Option<string>, releaseDate: Date,
                                   duration: int, mpaId: Option<int>)

  /** One row of films LEFT JOIN film_genres. */
  datatype FilmRow = FilmRow(id: int, record: FilmRecord, genreId: Option<int>)

  /** One row of SELECT film_id, user_id FROM likes. */
  datatype LikeRow = LikeRow(filmId: int, userId: int)

  /** The film the row mappers build: the columns, an empty genre set and
      the default (empty) like set. */
  function FromRecord(id: int, rec: FilmRecord): (f: Film)
    ensures f.id == Some(id) && f.genreIds == Some({}) && f.likes == {}
    ensures f.name == rec.name && f.description == rec.description && f.releaseDate == Some(rec.releaseDate)
    ensures f.duration == rec.duration && f.mpaId == rec.mpaId
  {
    Film(Some(id), rec.name, rec.description, Some(rec.releaseDate), rec.duration, rec.mpaId, Some({}), {})
  }

  /** The columns an INSERT or UPDATE writes. */
  function RecordOf(f: Film): (rec: FilmRecord)
    requires f.releaseDate.Some?
    ensures FromRecord(0, rec) == f.(id := Some(0), genreIds := Some({}), likes := {})
  {
    FilmRecord(f.name, f.description, f.releaseDate.value, f.duration, f.mpaId)
  }

  /** The edges from k to each element of xs. */
  function EdgesFrom(k: int, xs: set<int>): (r: set<(int, int)>)
    ensures forall x, y :: (x, y) in r <==> x == k && y in xs
  {
    set x | x in xs :: (k, x)
  }

  // ---- FilmResultSetExtractor.extractData ----

  /** The film ids of the first n rows, each the first time it occurs. */
  function FirstAppearance(rows: seq<FilmRow>, n: int): seq<int>
    requires 0 <= n <= |rows|
  {
    if n == 0 then []
    else
      var d := FirstAppearance(rows, n - 1);
      if rows[n - 1].id in d then d else d + [rows[n - 1].id]
  }

  /** They are the distinct ids of those rows. */
  lemma {:induction false} FirstAppearanceMembers(rows: seq<FilmRow>, n: int)
    requires 0 <= n <= |rows|
    ensures forall x :: x in FirstAppearance(rows, n) <==> exists j :: 0 <= j < n && rows[j].id == x
    ensures forall a, b :: 0 <= a < b < |FirstAppearance(rows, n)| ==>
              FirstAppearance(rows, n)[a] != FirstAppearance(rows, n)[b]
  {
    if n > 0 {
      FirstAppearanceMembers(rows, n - 1);
    }
  }

  /** The genre ids film k's rows among the first n contribute, row by row. */
  function GenresOf(rows: seq<FilmRow>, n: int, k: int): set<int>
    requires 0 <= n <= |rows|
  {
    if n == 0 then {}
    else
      var last := rows[n - 1];
      GenresOf(rows, n - 1, k) + (if last.id == k && last.genreId.Some? then {last.genreId.value} else {})
  }

  /** They are the non-null genre_id values over those rows. */
  lemma {:induction false} GenresOfMembers(rows: seq<FilmRow>, n: int, k: int)
    requires 0 <= n <= |rows|
    ensures forall g :: g in GenresOf(rows, n, k) <==> exists j :: 0 <= j < n && rows[j].id == k && rows[j].genreId == Some(g)
  {
    if n > 0 {
      GenresOfMembers(rows, n - 1, k);
    }
  }

  /** Row j is the first row of film k. */
  predicate IsFirstRow(rows: seq<FilmRow>, j: int, k: int)
  {
    0 <= j < |rows| && rows[j].id == k && forall q :: 0 <= q < j ==> rows[q].id != k
  }

  lemma GenresOfNext(rows: seq<FilmRow>, n: int, k: int)
    requires 0 <= n < |rows|
    ensures GenresOf(rows, n + 1, k) ==
              if rows[n].id == k && rows[n].genreId.Some? then GenresOf(rows, n, k) + {rows[n].genreId.value}
              else GenresOf(rows, n, k)
  {
    if !(rows[n].id == k && rows[n].genreId.Some?) {
      assert GenresOf(rows, n, k) + {} == GenresOf(rows, n, k);
    }
  }

  lemma {:induction false} GenresOfAbsent(rows: seq<FilmRow>, n: int, k: int)
    requires 0 <= n <= |rows|
    requires forall q :: 0 <= q < n ==> rows[q].id != k
    ensures GenresOf(rows, n, k) == {}
  {
    if n > 0 {
      GenresOfAbsent(rows, n - 1, k);
    }
  }

  /** LinkedHashMap keeps insertion order: an id listed earlier first
      appears in an earlier row. */
  lemma {:induction false} FirstAppearanceOrder(rows: seq<FilmRow>, n: int)
    requires 0 <= n <= |rows|
    ensures forall a, b, p, q :: 0 <= a < b < |FirstAppearance(rows, n)|
              && IsFirstRow(rows, p, FirstAppearance(rows, n)[a]) && IsFirstRow(rows, q, FirstAppearance(rows, n)[b])
              ==> p < q
  {
    if n > 0 {
      var d := FirstAppearance(rows, n - 1);
      var r := FirstAppearance(rows, n);
      FirstAppearanceOrder(rows, n - 1);
      FirstAppearanceMembers(rows, n - 1);
      forall a, b, p, q | 0 <= a < b < |r| && IsFirstRow(rows, p, r[a]) && IsFirstRow(rows, q, r[b])
        ensures p < q
      {
        assert r[a] == d[a] && r[a] in d;
        var pa :| 0 <= pa < n - 1 && rows[pa].id == r[a];
        assert p <= pa;
        if b < |d| {
          assert r[b] == d[b] && r[b] in d;
          var qb :| 0 <= qb < n - 1 && rows[qb].id == r[b];
          assert q <= qb;
        } else {
          assert r[b] == rows[n - 1].id && r[b] !in d;
          assert q >= n - 1;
        }
      }
    }
  }

  /** Each film of films holds the columns of its row first[k] and the
      genre ids of its first n rows. */
  ghost predicate BuiltFrom(rows: seq<FilmRow>, n: int, films: map<int, Film>, first: map<int, int>)
  {
    && 0 <= n <= |rows|
    && forall k :: k in films ==>
         k in first && 0 <= first[k] < |rows|
         && films[k] == FromRecord(k, rows[first[k]].record).(genreIds := Some(GenresOf(rows, n, k)))
  }

  /** extractData: one film per distinct row id, in first-appearance order;
      its columns from its first row; its genre ids the non-null genre_id
      values over all its rows.  first[k] is the row film k's columns were
      read from. */
  method ExtractData(rows: seq<FilmRow>) returns (order: seq<int>, films: map<int, Film>, ghost first: map<int, int>)
    ensures order == FirstAppearance(rows, |rows|)
    ensures forall k :: k in films <==> k in order
    ensures forall k :: k in films ==> k in first && IsFirstRow(rows, first[k], k)
    ensures BuiltFrom(rows, |rows|, films, first)
  {
    order := [];
    films := map[];
    first := map[];
    for i := 0 to |rows|
      invariant ExtractedUpTo(rows, i, order, films, first)
    {
      order, films, first := AddRow(rows, i, order, films, first);
    }
  }

  /** The state of extractData after the first n rows. */
  ghost predicate ExtractedUpTo(rows: seq<FilmRow>, n: int, order: seq<int>, films: map<int, Film>, first: map<int, int>)
  {
    && 0 <= n <= |rows|
    && order == FirstAppearance(rows, n)
    && (forall k :: k in films <==> k in order)
    && (forall k :: k in films ==> k in first && first[k] < n && IsFirstRow(rows, first[k], k))
    && BuiltFrom(rows, n, films, first)
  }

  /** One row of extractData: computeIfAbsent on the row's id, then its
      genre id, unless null, added to that film. */
  method AddRow(rows: seq<FilmRow>, i: int, order: seq<int>, films: map<int, Film>, ghost first: map<int, int>)
    returns (order': seq<int>, films': map<int, Film>, ghost first': map<int, int>)
    requires 0 <= i < |rows| && ExtractedUpTo(rows, i, order, films, first)
    ensures ExtractedUpTo(rows, i + 1, order', films', first')
  {
    var row := rows[i];
    order', films', first' := order, films, first;
    if row.id !in films {
      FirstAppearanceMembers(rows, i);
      GenresOfAbsent(rows, i, row.id);
      films' := films[row.id := FromRecord(row.id, row.record)];
      order' := order + [row.id];
      first' := first[row.id := i];
    }
    var film := films'[row.id];
    ghost var seen := films';
    if row.genreId.Some? {
      films' := films'[row.id := film.(genreIds := Some(film.genreIds.value + {row.genreId.value}))];
    }
    GenresStep(rows, i, seen, films', first');
  }

  /** Adding row i's genre id, if any, to its film extends the genre sets
      from the first i rows to the first i + 1. */
  lemma GenresStep(rows: seq<FilmRow>, i: int, seen: map<int, Film>, films: map<int, Film>, first: map<int, int>)
    requires 0 <= i < |rows| && BuiltFrom(rows, i, seen, first) && rows[i].id in seen
    requires films == if rows[i].genreId.Some? then
                        seen[rows[i].id := seen[rows[i].id].(genreIds := Some(seen[rows[i].id].genreIds.value + {rows[i].genreId.value}))]
                      else seen
    ensures BuiltFrom(rows, i + 1, films, first)
  {
    forall k | k in films
      ensures k in first && 0 <= first[k] < |rows|
      ensures films[k] == FromRecord(k, rows[first[k]].record).(genreIds := Some(GenresOf(rows, i + 1, k)))
    {
      GenresOfNext(rows, i, k);
      if k != rows[i].id {
        assert films[k] == seen[k];
      }
    }
  }

  // ---- loadAllLikes ----

  /** The user ids of the like rows of film k. */
  function UsersOf(rows: seq<LikeRow>, k: int): (r: set<int>)
    ensures forall u :: u in r <==> LikeRow(k, u) in rows
  {
    if rows == [] then {}
    else
      var init := rows[..|rows| - 1];
      var last := rows[|rows| - 1];
      assert rows == init + [last];
      UsersOf(init, k) + (if last.filmId == k then {last.userId} else {})
  }

  /** loadAllLikes: no films, nothing to do; otherwise the rows folded into
      a film-id to user-id-set map, and each film given its entry or an
      empty set. */
  method LoadAllLikes(films: seq<Film>, rows: seq<LikeRow>) returns (r: seq<Film>)
    requires forall i :: 0 <= i < |films| ==> films[i].id.Some?
    ensures |r| == |films|
    ensures forall i :: 0 <= i < |r| ==> r[i] == films[i].(likes := UsersOf(rows, films[i].id.value))
  {
    if films == [] {
      return [];
    }
    var likesMap: map<int, set<int>> := map[];
    for i := 0 to |rows|
      invariant forall k :: k in likesMap ==> likesMap[k] == UsersOf(rows[..i], k)
      invariant forall k :: k !in likesMap ==> UsersOf(rows[..i], k) == {}
    {
      assert rows[..i + 1][..i] == rows[..i];
      var row := rows[i];
      var users := if row.filmId in likesMap then likesMap[row.filmId] else {};
      likesMap := likesMap[row.filmId := users + {row.userId}];
    }
    assert rows[..|rows|] == rows;
    r := [];
    for i := 0 to |films|
      invariant |r| == i
      invariant forall j :: 0 <= j < i ==> r[j] == films[j].(likes := UsersOf(rows, films[j].id.value))
    {
      var id := films[i].id.value;
      var likes := if id in likesMap then likesMap[id] else {};
      r := r + [films[i].(likes := likes)];
    }
  }

  // ---- the tables ----

  class FilmDbStorage {
    var films: map<int, FilmRecord>
    var filmGenres: set<(int, int)>
    var likes: set<(int, int)>

    constructor ()
      ensures films == map[] && filmGenres == {} && likes == {}
    {
      films := map[];
      filmGenres := {};
      likes := {};
    }

    /** Film k as the tables hold it: its columns, its genre edges and its
        like edges. */
    function Stored(k: int): (f: Film)
      requires k in films
      reads this
      ensures f.id == Some(k) && GenreSet(f) == Targets(filmGenres, k) && f.likes == Targets(likes, k)
    {
      FromRecord(k, films[k]).(genreIds := Some(Targets(filmGenres, k)), likes := Targets(likes, k))
    }

    /** rows are what films LEFT JOIN film_genres returns for the films with
        an id in ids, in some order: one row per genre edge of such a film,
        and a single row with a null genre for such a film without any. */
    ghost predicate JoinOf(rows: seq<FilmRow>, ids: set<int>)
      reads this
    {
      && (forall j :: 0 <= j < |rows| ==>
            && rows[j].id in ids && rows[j].id in films && rows[j].record == films[rows[j].id]
            && (rows[j].genreId.Some? ==> (rows[j].id, rows[j].genreId.value) in filmGenres)
            && (rows[j].genreId.None? ==> Targets(filmGenres, rows[j].id) == {}))
      && (forall k :: k in ids && k in films ==> exists j :: 0 <= j < |rows| && rows[j].id == k)
      && (forall k, g :: k in ids && k in films && g in Targets(filmGenres, k) ==>
            exists j :: 0 <= j < |rows| && rows[j].id == k && rows[j].genreId == Some(g))
    }

    /** rows are what SELECT film_id, user_id FROM likes WHERE film_id IN
        (ids) returns, in some order. */
    ghost predicate LikesOf(rows: seq<LikeRow>, ids: set<int>)
      reads this
    {
      (set j | 0 <= j < |rows| :: (rows[j].filmId, rows[j].userId)) == (set e | e in likes && e.0 in ids)
    }

    /** Grouping the join rows rebuilds each selected film as stored, apart
        from its likes, which the rows do not carry. */
    lemma JoinRebuildsFilms(rows: seq<FilmRow>, ids: set<int>, k: int, j: int)
      requires JoinOf(rows, ids) && 0 <= j < |rows| && rows[j].id == k
      ensures k in films
      ensures FromRecord(k, rows[j].record).(genreIds := Some(GenresOf(rows, |rows|, k)))
              == Stored(k).(likes := {})
    {
      GenresOfMembers(rows, |rows|, k);
      assert GenresOf(rows, |rows|, k) == Targets(filmGenres, k) by {
        forall g ensures g in GenresOf(rows, |rows|, k) <==> g in Targets(filmGenres, k) {
          if g in GenresOf(rows, |rows|, k) {
            var i :| 0 <= i < |rows| && rows[i].id == k && rows[i].genreId == Some(g);
            assert (rows[i].id, rows[i].genreId.value) in filmGenres;
          }
        }
      }
    }

    /** What extractData makes of join rows: the selected stored films,
        each rebuilt as stored apart from its likes. */
    lemma GroupedJoin(rows: seq<FilmRow>, ids: set<int>, order: seq<int>, byId: map<int, Film>, first: map<int, int>)
      requires JoinOf(rows, ids)
      requires order == FirstAppearance(rows, |rows|)
      requires forall k :: k in byId <==> k in order
      requires forall k :: k in byId ==> k in first && IsFirstRow(rows, first[k], k)
      requires BuiltFrom(rows, |rows|, byId, first)
      ensures forall k :: k in order <==> k in ids && k in films
      ensures forall k :: k in byId ==> byId[k] == Stored(k).(likes := {})
      ensures forall a, b :: 0 <= a < b < |order| ==> order[a] != order[b]
    {
      FirstAppearanceMembers(rows, |rows|);
      forall k ensures k in order <==> k in ids && k in films {
        if k in order {
          var j :| 0 <= j < |rows| && rows[j].id == k;
        }
      }
      forall k | k in byId ensures byId[k] == Stored(k).(likes := {}) {
        JoinRebuildsFilms(rows, ids, k, first[k]);
      }
    }

    /** jdbcTemplate.query(sql, new FilmResultSetExtractor()): the join rows
        grouped into the selected stored films, by id in first-appearance
        order, each as stored apart from its likes. */
    method Query(rows: seq<FilmRow>, ids: set<int>) returns (order: seq<int>, byId: map<int, Film>)
      requires JoinOf(rows, ids)
      ensures order == FirstAppearance(rows, |rows|)
      ensures forall k :: k in order <==> k in ids && k in films
      ensures forall a, b :: 0 <= a < b < |order| ==> order[a] != order[b]
      ensures forall k :: k in byId <==> k in order
      ensures forall k :: k in byId ==> k in films && byId[k] == Stored(k).(likes := {})
    {
      ghost var first;
      order, byId, first := ExtractData(rows);
      GroupedJoin(rows, ids, order, byId, first);
    }

    /** filmMap.values() of the query: the selected films in first-appearance
        order. */
    method Select(rows: seq<FilmRow>, ids: set<int>) returns (order: seq<int>, all: seq<Film>)
      requires JoinOf(rows, ids)
      ensures order == FirstAppearance(rows, |rows|)
      ensures forall k :: k in order <==> k in ids && k in films
      ensures forall a, b :: 0 <= a < b < |order| ==> order[a] != order[b]
      ensures |all| == |order|
      ensures forall i :: 0 <= i < |order| ==> order[i] in films && all[i] == Stored(order[i]).(likes := {})
    {
      var byId;
      order, byId := Query(rows, ids);
      assert forall i :: 0 <= i < |order| ==> order[i] in order;
      all := ValuesAt(order, byId);
    }

    /** Folding the like rows of the selected films gives each its like
        edges. */
    lemma LikeRowsGrouped(rows: seq<LikeRow>, ids: set<int>)
      requires LikesOf(rows, ids)
      ensures forall k :: k in ids ==> UsersOf(rows, k) == Targets(likes, k)
    {
      forall k | k in ids ensures UsersOf(rows, k) == Targets(likes, k) {
        forall u ensures u in UsersOf(rows, k) <==> u in Targets(likes, k) {
          var pairs := set j | 0 <= j < |rows| :: (rows[j].filmId, rows[j].userId);
          if LikeRow(k, u) in rows {
            var j :| 0 <= j < |rows| && rows[j] == LikeRow(k, u);
            assert (k, u) in pairs;
          }
          if (k, u) in likes {
            assert (k, u) in pairs;
            var j :| 0 <= j < |rows| && (rows[j].filmId, rows[j].userId) == (k, u);
            assert rows[j] == LikeRow(k, u);
          }
        }
      }
    }

    /** findAll: every selected film, in the order the rows first name them,
        with its genres and likes as the tables hold them. */
    method FindAll(rows: seq<FilmRow>, likeRows: seq<LikeRow>) returns (r: seq<Film>)
      requires JoinOf(rows, films.Keys) && LikesOf(likeRows, films.Keys)
      ensures |r| == |films| == |FirstAppearance(rows, |rows|)|
      ensures forall i :: 0 <= i < |r| ==> FirstAppearance(rows, |rows|)[i] in films
      ensures forall i :: 0 <= i < |r| ==> r[i] == Stored(FirstAppearance(rows, |rows|)[i])
      ensures forall k :: k in films ==> Stored(k) in r
    {
      var order, all := Select(rows, films.Keys);
      assert forall i :: 0 <= i < |all| ==> all[i].id == Some(order[i]);
      r := LoadAllLikes(all, likeRows);
      FilmsAssembled(rows, likeRows, order, all, r);
    }

    /** Giving the selected films, in order, their like edges yields every
        stored film, once each, in the order the rows first name them. */
    lemma FilmsAssembled(rows: seq<FilmRow>, likeRows: seq<LikeRow>, order: seq<int>, all: seq<Film>, r: seq<Film>)
      requires LikesOf(likeRows, films.Keys)
      requires order == FirstAppearance(rows, |rows|)
      requires forall k :: k in order <==> k in films.Keys && k in films
      requires forall a, b :: 0 <= a < b < |order| ==> order[a] != order[b]
      requires |all| == |order|
      requires forall i :: 0 <= i < |order| ==> order[i] in films && all[i] == Stored(order[i]).(likes := {})
      requires forall i :: 0 <= i < |all| ==> all[i].id.Some?
      requires |r| == |all|
      requires forall i :: 0 <= i < |r| ==> r[i] == all[i].(likes := UsersOf(likeRows, all[i].id.value))
      ensures |r| == |films| == |FirstAppearance(rows, |rows|)|
      ensures forall i :: 0 <= i < |r| ==> FirstAppearance(rows, |rows|)[i] in films
      ensures forall i :: 0 <= i < |r| ==> r[i] == Stored(FirstAppearance(rows, |rows|)[i])
      ensures forall k :: k in films ==> Stored(k) in r
    {
      NoDuplicatesListSet(order, films.Keys);
      assert |films.Keys| == |films|;
      LikeRowsGrouped(likeRows, films.Keys);
      forall i | 0 <= i < |r| ensures r[i] == Stored(order[i]) {
        var k := order[i];
        assert all[i] == Stored(k).(likes := {});
        assert UsersOf(likeRows, k) == Targets(likes, k);
      }
      forall k | k in films ensures Stored(k) in r {
        var i :| 0 <= i < |order| && order[i] == k;
        assert r[i] == Stored(k);
      }
    }

    /** findById: NotFound when the join has no row for the id; otherwise
        the film as stored, its likes from SELECT user_id FROM likes WHERE
        film_id = id. */
    method FindById(id: int, rows: seq<FilmRow>, userIds: seq<int>) returns (r: Result<Film>)
      requires JoinOf(rows, {id})
      requires forall u :: u in userIds <==> (id, u) in likes
      ensures r.Ok? <==> id in films
      ensures r.Err? ==> r.error == NotFound(FilmEntity, Some(id))
      ensures r.Ok? ==> r.value == Stored(id)
    {
      var order, all := Select(rows, {id});
      if order == [] {
        return Err(NotFound(FilmEntity, Some(id)));
      }
      assert order[0] in order;
      var film := all[0];
      assert (set u | u in userIds) == Targets(likes, id) by {
        forall u ensures u in (set u | u in userIds) <==> u in Targets(likes, id) {
          assert u in userIds <==> (id, u) in likes;
        }
      }
      r := Ok(film.(likes := set u | u in userIds));
    }

    /** save: the columns inserted under the generated key, then one genre
        edge per genre id (none for a null or empty set); the film comes back
        carrying the key.  Nothing is validated here. */
    method Save(film: Film, key: int) returns (r: Film)
      requires key !in films && film.releaseDate.Some?
      modifies this
      ensures r == film.(id := Some(key))
      ensures films == old(films)[key := RecordOf(film)]
      ensures filmGenres == old(filmGenres) + EdgesFrom(key, GenreSet(film))
      ensures likes == old(likes)
    {
      films := films[key := RecordOf(film)];
      r := film.(id := Some(key));
      SaveGenres(r);
    }

    /** saveGenresBatch. */
    method SaveGenres(film: Film)
      requires film.id.Some?
      modifies this
      ensures films == old(films) && likes == old(likes)
      ensures filmGenres == old(filmGenres) + EdgesFrom(film.id.value, GenreSet(film))
    {
      if film.genreIds.Some? && film.genreIds.value != {} {
        filmGenres := filmGenres + EdgesFrom(film.id.value, film.genreIds.value);
      } else {
        assert EdgesFrom(film.id.value, GenreSet(film)) == {};
      }
    }

    /** update: NotFound when no row matches the id (a null id matches
        none); otherwise the columns are overwritten and the film's genre
        edges replaced, so they are then exactly its genre ids. */
    method Update(film: Film) returns (r: Result<Film>)
      requires film.releaseDate.Some?
      modifies this
      ensures likes == old(likes)
      ensures film.id.None? || film.id.value !in old(films) ==>
                r == Err(NotFound(FilmEntity, film.id)) && films == old(films) && filmGenres == old(filmGenres)
      ensures film.id.Some? && film.id.value in old(films) ==>
                && r == Ok(film)
                && films == old(films)[film.id.value := RecordOf(film)]
                && Targets(filmGenres, film.id.value) == GenreSet(film)
                && forall k :: k != film.id.value ==> Targets(filmGenres, k) == Targets(old(filmGenres), k)
    {
      if film.id.None? || film.id.value !in films {
        return Err(NotFound(FilmEntity, film.id));
      }
      var id := film.id.value;
      films := films[id := RecordOf(film)];
      filmGenres := set e | e in filmGenres && e.0 != id;
      SaveGenres(film);
      return Ok(film);
    }

    /** addLike: the (filmId, userId) edge is inserted. */
    method AddLike(filmId: int, userId: int)
      modifies this
      ensures likes == old(likes) + {(filmId, userId)}
      ensures films == old(films) && filmGenres == old(filmGenres)
    {
      likes := likes + {(filmId, userId)};
    }

    /** removeLike: only the (filmId, userId) edge goes. */
    method RemoveLike(filmId: int, userId: int)
      modifies this
      ensures likes == old(likes) - {(filmId, userId)}
      ensures films == old(films) && filmGenres == old(filmGenres)
    {
      likes := likes - {(filmId, userId)};
    }

    /** deleteById: the films row goes; an absent id is no error, and the
        edge tables are not touched. */
    method DeleteById(id: int)
      modifies this
      ensures films == old(films) - {id}
      ensures filmGenres == old(filmGenres) && likes == old(likes)
    {
      films := films - {id};
    }

    /** COUNT(l.user_id) of film k: its like edges, zero when it has none. */
    function LikeCount(k: int): nat
      reads this
    {
      |Targets(likes, k)|
    }

    /** a comes before b under ORDER BY likes_count DESC, f.id. */
    predicate Outranks(a: int, b: int)
      reads this
    {
      LikeCount(a) > LikeCount(b) || (LikeCount(a) == LikeCount(b) && a < b)
    }

    /** The ids getPopular selects: the stored ids, ascending, stably sorted
        by like count, largest first, and cut to count. */
    function PopularIds(count: int): (r: seq<int>)
      requires count > 0
      reads this
      ensures |r| == if count < |films| then count else |films|
      ensures forall i :: 0 <= i < |r| ==> r[i] in films
    {
      var ids := SortedIds(films.Keys);
      var key := CountOf(likes);
      TopIsPartOf(ids, key, count);
      assert |ids| == |films.Keys| == |films|;
      Take(SortDesc(ids, key), count)
    }

    /** ORDER BY likes_count DESC, f.id LIMIT count: each selected film
        outranks the ones after it and every film left out. */
    lemma PopularIdsRanked(count: int)
      requires count > 0
      ensures forall a, b :: 0 <= a < b < |PopularIds(count)| ==> Outranks(PopularIds(count)[a], PopularIds(count)[b])
      ensures forall i, k :: 0 <= i < |PopularIds(count)| && k in films && k !in PopularIds(count) ==>
                Outranks(PopularIds(count)[i], k)
    {
      var ids := SortedIds(films.Keys);
      var key := CountOf(likes);
      TopIsPartOf(ids, key, count);
      TopOfRanking(ids, key, count);
      var r := PopularIds(count);
      assert r == Take(SortDesc(ids, key), count);
      forall a, b | 0 <= a < b < |r| ensures Outranks(r[a], r[b]) {
        assert key(r[a]) == LikeCount(r[a]) && key(r[b]) == LikeCount(r[b]);
      }
      forall i, k | 0 <= i < |r| && k in films && k !in r ensures Outranks(r[i], k) {
        assert k in ids;
        assert key(r[i]) == LikeCount(r[i]) && key(k) == LikeCount(k);
      }
    }

    /** getPopular: the selected films, each built from its columns with an
        empty genre set and no likes. */
    function GetPopular(count: int): (r: seq<Film>)
      requires count > 0
      reads this
      ensures |r| == |PopularIds(count)|
      ensures forall i :: 0 <= i < |r| ==> r[i] == FromRecord(PopularIds(count)[i], films[PopularIds(count)[i]])
    {
      var ids := PopularIds(count);
      var m := films;
      seq(|ids|, i requires 0 <= i < |ids| && ids[i] in m => FromRecord(ids[i], m[ids[i]]))
    }
  }

  /** The like count of each film id under the like edges l. */
  function CountOf(l: set<(int, int)>): (key: int -> int)
    ensures forall k :: key(k) == |Targets(l, k)|
  {
    (k: int) => |Targets(l, k)|
  }

  /** LIMIT n over an ordering of s: n ids of s, or all of them. */
  lemma TopIsPartOf(s: seq<int>, key: int -> int, n: nat)
    ensures |Take(SortDesc(s, key), n)| == if n < |s| then n else |s|
    ensures forall i :: 0 <= i < |Take(SortDesc(s, key), n)| ==> Take(SortDesc(s, key), n)[i] in s
  {
    var sorted := SortDesc(s, key);
    assert |sorted| == |multiset(sorted)| == |multiset(s)| == |s|;
    forall i | 0 <= i < |Take(sorted, n)| ensures Take(sorted, n)[i] in s {
      assert Take(sorted, n)[i] == sorted[i] && sorted[i] in multiset(sorted);
    }
  }

  /** ORDER BY key DESC, id LIMIT n over a strictly increasing id list:
      ranked by key then id, each selected id outranking every id left
      out. */
  lemma TopOfRanking(s: seq<int>, key: int -> int, n: nat)
    requires StrictlyIncreasing(s)
    ensures RankedByKeyThenId(Take(SortDesc(s, key), n), key)
    ensures forall i, x :: 0 <= i < |Take(SortDesc(s, key), n)| && x in s && x !in Take(SortDesc(s, key), n) ==>
              var y := Take(SortDesc(s, key), n)[i];
              key(y) > key(x) || (key(y) == key(x) && y < x)
  {
    var sorted := SortDesc(s, key);
    SortDescRanksAscendingIds(s, key);
    assert |sorted| == |multiset(sorted)| == |multiset(s)| == |s|;
    var r := Take(sorted, n);
    assert r == sorted[..|r|];
    forall x | x in s ensures x in sorted {
      assert x in multiset(s);
    }
    assert RankedByKeyThenId(r, key) by {
      forall i, j | 0 <= i < j < |r| ensures key(r[i]) > key(r[j]) || (key(r[i]) == key(r[j]) && r[i] < r[j]) {
        assert r[i] == sorted[i] && r[j] == sorted[j];
      }
    }
    PrefixOutranksRest(sorted, |r|, key);
  }

  /** In a ranked list, each of the first n ids outranks every id after
      them. */
  lemma PrefixOutranksRest(s: seq<int>, n: nat, key: int -> int)
    requires RankedByKeyThenId(s, key) && n <= |s|
    ensures forall i, x :: 0 <= i < n && x in s && x !in s[..n] ==>
              key(s[i]) > key(x) || (key(s[i]) == key(x) && s[i] < x)
  {
    forall i, x | 0 <= i < n && x in s && x !in s[..n]
      ensures key(s[i]) > key(x) || (key(s[i]) == key(x) && s[i] < x)
    {
      var j :| 0 <= j < |s| && s[j] == x;
    }
  }
}
