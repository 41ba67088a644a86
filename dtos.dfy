/** The two incoming film DTOs and their toFilm conversions.  Both copy the
    scalar fields and collapse the MPA object to its id; they differ on the
    genres: FilmCreateDto sets genre ids only for a non-empty genre set,
    FilmRequest for any genre set that is present, the empty one included.
    Neither DTO has an id field, so the payload's id is not read. */
module Dtos {

  import opened Model

  /** The ids of a set of genre objects; objects with the same id and
      different names give one id. */
  function GenreIdsOf(genres: set<GenreDto>): (ids: set<int>)
    ensures forall x :: x in ids <==> exists g :: g in genres && g.id == x
  {
    set g | g in genres :: g.id
  }

  /** Duplicate ids collapse: there are never more ids than genre objects. */
  lemma {:induction false} GenreIdsAtMostGenres(genres: set<GenreDto>)
    ensures |GenreIdsOf(genres)| <= |genres|
    decreases |genres|
  {
    if genres != {} {
      var g :| g in genres;
      GenreIdsAtMostGenres(genres - {g});
      assert GenreIdsOf(genres) == GenreIdsOf(genres - {g}) + {g.id};
    }
  }

  /** Example: two genre objects for one id, under different names, give
      that id once. */
  lemma SameIdCollapses()
    ensures GenreIdsOf({GenreDto(1, Some("Comedy")), GenreDto(1, None)}) == {1}
    ensures |{GenreDto(1, Some("Comedy")), GenreDto(1, None)}| == 2
  {
    var both := {GenreDto(1, Some("Comedy")), GenreDto(1, None)};
    assert GenreDto(1, None) in both;
  }

  /** The genre loop: each object's id added to a fresh hash set. */
  method CollectGenreIds(genres: set<GenreDto>) returns (ids: set<int>)
    ensures ids == GenreIdsOf(genres)
  {
    ids := {};
    var rest := genres;
    while rest != {}
      invariant rest <= genres
      invariant ids == GenreIdsOf(genres - rest)
      decreases rest
    {
      var g :| g in rest;
      assert genres - (rest - {g}) == (genres - rest) + {g};
      ids := ids + {g.id};
      rest := rest - {g};
    }
    assert genres - rest == genres;
  }

  /** The film a DTO converts to: a fresh film with the scalar fields
      copied, the MPA object collapsed to its id, and the given id and genre
      ids; no likes. */
  function Converted(dto: FilmPayload, id: Option<int>, genreIds: Option<set<int>>): (f: Film)
    ensures f.id == id && f.name == dto.name && f.description == dto.description
    ensures f.releaseDate == dto.releaseDate && f.duration == dto.duration
    ensures f.mpaId == (if dto.mpa.Some? then dto.mpa.value.id else None)
    ensures f.genreIds == genreIds && f.likes == {}
  {
    NewFilm.(id := id, name := dto.name, description := dto.description, releaseDate := dto.releaseDate,
             duration := dto.duration, mpaId := if dto.mpa.Some? then dto.mpa.value.id else None,
             genreIds := genreIds)
  }

  /** FilmCreateDto's genre rule: ids only for a genre set that is present
      and not empty. */
  function CreateDtoGenreIds(genres: Option<set<GenreDto>>): (r: Option<set<int>>)
    ensures r.Some? <==> genres.Some? && genres.value != {}
    ensures r.Some? ==> r.value == GenreIdsOf(genres.value) && r.value != {}
  {
    if genres.Some? && genres.value != {} then
      assert exists g :: g in genres.value && g.id in GenreIdsOf(genres.value) by {
        }
      Some(GenreIdsOf(genres.value))
    else None
  }

  /** FilmRequest's genre rule: ids for any genre set that is present. */
  function RequestGenreIds(genres: Option<set<GenreDto>>): (r: Option<set<int>>)
    ensures r.Some? <==> genres.Some?
    ensures r.Some? ==> r.value == GenreIdsOf(genres.value)
  {
    if genres.Some? then Some(GenreIdsOf(genres.value)) else None
  }

  /** The two rules agree except on a present but empty genre set, which
      leaves FilmCreateDto's film without genre ids and gives FilmRequest's
      an empty set. */
  lemma GenreRulesDifferOnlyOnEmpty(genres: Option<set<GenreDto>>)
    ensures CreateDtoGenreIds(genres) != RequestGenreIds(genres) <==> genres == Some({})
    ensures genres == Some({}) ==> CreateDtoGenreIds(genres) == None && RequestGenreIds(genres) == Some({})
  {
    if genres == Some({}) {
      assert GenreIdsOf({}) == {};
    }
  }

  /** FilmCreateDto.toFilm. */
  method CreateDtoToFilm(dto: FilmPayload) returns (film: Film)
    ensures film == Converted(dto, None, CreateDtoGenreIds(dto.genres))
  {
    film := NewFilm.(name := dto.name, description := dto.description, releaseDate := dto.releaseDate,
                     duration := dto.duration);
    if dto.mpa.Some? {
      film := film.(mpaId := dto.mpa.value.id);
    }
    if dto.genres.Some? && dto.genres.value != {} {
      var ids := CollectGenreIds(dto.genres.value);
      film := film.(genreIds := Some(ids));
    }
  }

  /** FilmRequest.toFilm. */
  method RequestToFilm(dto: FilmPayload) returns (film: Film)
    ensures film == Converted(dto, None, RequestGenreIds(dto.genres))
  {
    film := NewFilm.(name := dto.name, description := dto.description, releaseDate := dto.releaseDate,
                     duration := dto.duration);
    if dto.mpa.Some? {
      film := film.(mpaId := dto.mpa.value.id);
    }
    if dto.genres.Some? {
      var ids := CollectGenreIds(dto.genres.value);
      film := film.(genreIds := Some(ids));
    }
  }
}
