/** InMemoryFilmStorage: films kept in a map under their id, ids handed out
    from a counter that starts at 1. */
module FilmMemory {

  import opened Model
  import opened Validation
  import opened Ranking

  class InMemoryFilmStorage {
    var films: map<int, Film>
    var nextId: int

    /** Every film is stored under its own id, and every id is below the
        counter, so the counter's value is always a fresh id; and every
        stored film passed the field rules, so none that breaks them is
        ever stored. */
    ghost predicate Valid()
      reads this
    {
      && 1 <= nextId
      && (forall k :: k in films ==> films[k].id == Some(k) && 1 <= k < nextId)
      && (forall k :: k in films ==> FilmIsValid(films[k]))
    }

    constructor ()
      ensures Valid() && films == map[] && nextId == 1
    {
      films := map[];
      nextId := 1;
    }

    /** findAll: every stored film once.  The map's iteration order is taken
        to be ascending id. */
    function FindAll(): (r: seq<Film>)
      requires Valid()
      reads this
      ensures |r| == |films|
      ensures forall i :: 0 <= i < |r| ==> r[i].id.Some? && r[i].id.value in films && films[r[i].id.value] == r[i]
      ensures forall k :: k in films ==> films[k] in r
      ensures forall i, j :: 0 <= i < j < |r| ==> r[i].id.value < r[j].id.value
    {
      EveryValueListed(films);
      ValuesInKeyOrder(films)
    }

    /** findById: the stored film, or NotFound. */
    function FindById(id: int): (r: Result<Film>)
      reads this
      ensures r.Ok? <==> id in films
      ensures r.Ok? ==> r.value == films[id]
      ensures r.Err? ==> r.error == NotFound(FilmEntity, Some(id))
    {
      if id in films then Ok(films[id]) else Err(NotFound(FilmEntity, Some(id)))
    }

    /** save: validate, then tag the film with the counter's value, store it
        under that id and advance the counter by one; an incoming id is
        ignored.  A rejected film leaves the store untouched. */
    method Save(film: Film) returns (r: Result<Film>)
      requires Valid()
      modifies this
      ensures Valid()
      ensures ValidateFilm(film).Fail? ==> r == Err(ValidateFilm(film).error) && films == old(films) && nextId == old(nextId)
      ensures ValidateFilm(film) == Pass ==>
                && old(nextId) !in old(films)
                && r == Ok(film.(id := Some(old(nextId))))
                && films == old(films)[old(nextId) := r.value]
                && nextId == old(nextId) + 1
    {
      var verdict := ValidateFilm(film);
      if verdict.Fail? {
        return Err(verdict.error);
      }
      var saved := film.(id := Some(nextId));
      nextId := nextId + 1;
      films := films[saved.id.value := saved];
      return Ok(saved);
    }

    /** update: validate first, then NotFound for an id not stored; otherwise
        only that id's entry is replaced.  (A null id would make the
        concurrent map throw, so one is required.) */
    method Update(film: Film) returns (r: Result<Film>)
      requires Valid() && film.id.Some?
      modifies this
      ensures Valid() && nextId == old(nextId)
      ensures ValidateFilm(film).Fail? ==> r == Err(ValidateFilm(film).error) && films == old(films)
      ensures ValidateFilm(film) == Pass && film.id.value !in old(films) ==>
                r == Err(NotFound(FilmEntity, film.id)) && films == old(films)
      ensures ValidateFilm(film) == Pass && film.id.value in old(films) ==>
                r == Ok(film) && films == old(films)[film.id.value := film]
    {
      var verdict := ValidateFilm(film);
      if verdict.Fail? {
        return Err(verdict.error);
      }
      if film.id.value !in films {
        return Err(NotFound(FilmEntity, film.id));
      }
      films := films[film.id.value := film];
      return Ok(film);
    }

    /** deleteById: NotFound for an absent id; otherwise only that key goes. */
    method DeleteById(id: int) returns (o: Outcome)
      requires Valid()
      modifies this
      ensures Valid() && nextId == old(nextId)
      ensures id !in old(films) ==> o == Fail(NotFound(FilmEntity, Some(id))) && films == old(films)
      ensures id in old(films) ==> o == Pass && films == old(films) - {id}
    {
      if id !in films {
        return Fail(NotFound(FilmEntity, Some(id)));
      }
      films := films - {id};
      return Pass;
    }

    /** addLike: the user joins the film's like set; liking twice changes
        nothing, and no other film is touched. */
    method AddLike(filmId: int, userId: int) returns (o: Outcome)
      requires Valid()
      modifies this
      ensures Valid() && nextId == old(nextId) && films.Keys == old(films).Keys
      ensures filmId !in old(films) ==> o == Fail(NotFound(FilmEntity, Some(filmId))) && films == old(films)
      ensures filmId in old(films) ==>
                && o == Pass
                && films == old(films)[filmId := old(films)[filmId].(likes := old(films)[filmId].likes + {userId})]
                && (userId in old(films)[filmId].likes ==> films == old(films))
      ensures forall k :: k in films && k != filmId ==> films[k] == old(films)[k]
    {
      var found := FindById(filmId);
      if found.Err? {
        return Fail(found.error);
      }
      var film := found.value;
      if userId in film.likes {
        assert film.(likes := film.likes + {userId}) == film;
        assert films[filmId := film] == films;
      }
      films := films[filmId := film.(likes := film.likes + {userId})];
      return Pass;
    }

    /** removeLike: the user leaves the film's like set; removing a user who
        never liked it changes nothing, and no other film is touched. */
    method RemoveLike(filmId: int, userId: int) returns (o: Outcome)
      requires Valid()
      modifies this
      ensures Valid() && nextId == old(nextId) && films.Keys == old(films).Keys
      ensures filmId !in old(films) ==> o == Fail(NotFound(FilmEntity, Some(filmId))) && films == old(films)
      ensures filmId in old(films) ==>
                && o == Pass
                && films == old(films)[filmId := old(films)[filmId].(likes := old(films)[filmId].likes - {userId})]
                && (userId !in old(films)[filmId].likes ==> films == old(films))
      ensures forall k :: k in films && k != filmId ==> films[k] == old(films)[k]
    {
      var found := FindById(filmId);
      if found.Err? {
        return Fail(found.error);
      }
      var film := found.value;
      if userId !in film.likes {
        assert film.(likes := film.likes - {userId}) == film;
        assert films[filmId := film] == films;
      }
      films := films[filmId := film.(likes := film.likes - {userId})];
      return Pass;
    }
  }
}
