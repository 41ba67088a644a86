/** FilmMapper: a film DTO to a film (as FilmCreateDto.toFilm, but the id
    copied), and a film to its read-side DTO given the MPA and genre
    objects by id.  A reference absent from those maps renders as null, as
    Map.get returns it. */
module Mapper {

  import opened Model
  import opened Ranking
  import opened Dtos

  /** toFilm: the id and scalar fields copied, the MPA object collapsed to
      its id, genre ids only for a genre set that is present and not
      empty. */
  method ToFilm(dto: FilmPayload) returns (film: Film)
    ensures film == Converted(dto, dto.id, CreateDtoGenreIds(dto.genres))
  {
    film := NewFilm.(id := dto.id, name := dto.name, description := dto.description,
                     releaseDate := dto.releaseDate, duration := dto.duration);
    if dto.mpa.Some? {
      film := film.(mpaId := dto.mpa.value.id);
    }
    if dto.genres.Some? && dto.genres.value != {} {
      var ids := CollectGenreIds(dto.genres.value);
      film := film.(genreIds := Some(ids));
    }
  }

  /** genreMap.get(id): the object, or null. */
  function GenreOf(genreMap: map<int, GenreDto>, id: int): Option<GenreDto>
  {
    if id in genreMap then Some(genreMap[id]) else None
  }

  /** genreMap.get over a list of ids. */
  function Lookups(ids: seq<int>, genreMap: map<int, GenreDto>): (r: seq<Option<GenreDto>>)
    ensures |r| == |ids|
    ensures forall i :: 0 <= i < |r| ==> r[i] == GenreOf(genreMap, ids[i])
  {
    seq(|ids|, i requires 0 <= i < |ids| => GenreOf(genreMap, ids[i]))
  }

  /** What adding the elements of s, in order, to an empty LinkedHashSet
      holds: each element once, at its first occurrence. */
  function Distinct<T(==, !new)>(s: seq<T>): (r: seq<T>)
    ensures forall x :: x in r <==> x in s
    ensures forall i, j :: 0 <= i < j < |r| ==> r[i] != r[j]
    ensures |r| <= |s|
  {
    if s == [] then []
    else
      var init := s[..|s| - 1];
      var last := s[|s| - 1];
      assert s == init + [last];
      var kept := Distinct(init);
      if last in kept then kept else kept + [last]
  }

  /** A list without repeats is kept as it is. */
  lemma {:induction false} DistinctOfUnique<T(!new)>(s: seq<T>)
    requires forall i, j :: 0 <= i < j < |s| ==> s[i] != s[j]
    ensures Distinct(s) == s
  {
    if s != [] {
      var init := s[..|s| - 1];
      assert forall i, j :: 0 <= i < j < |init| ==> init[i] != init[j] by {
        forall i, j | 0 <= i < j < |init| ensures init[i] != init[j] {
          assert init[i] == s[i] && init[j] == s[j];
        }
      }
      DistinctOfUnique(init);
      assert s[|s| - 1] !in init by {
        forall i | 0 <= i < |init| ensures init[i] != s[|s| - 1] {
          assert init[i] == s[i];
        }
      }
      assert s == init + [s[|s| - 1]];
    }
  }

  /** The genres of toDto for a film with genre ids ids: looked up in
      ascending id order and collected in an insertion-ordered set. */
  function RenderedGenres(ids: set<int>, genreMap: map<int, GenreDto>): seq<Option<GenreDto>>
  {
    Distinct(Lookups(SortedIds(ids), genreMap))
  }

  /** Whatever the map holds: no entry twice, and an entry exactly for
      what some genre id maps to (null for an id the map lacks). */
  lemma RenderedGenresContents(ids: set<int>, genreMap: map<int, GenreDto>)
    ensures var r := RenderedGenres(ids, genreMap);
            forall i, j :: 0 <= i < j < |r| ==> r[i] != r[j]
    ensures forall x :: x in RenderedGenres(ids, genreMap) <==> exists id :: id in ids && x == GenreOf(genreMap, id)
  {
    forall x ensures x in RenderedGenres(ids, genreMap) <==> exists id :: id in ids && x == GenreOf(genreMap, id) {
      if x in RenderedGenres(ids, genreMap) {
        RenderedIsLookedUp(ids, genreMap, x);
      }
      if exists id :: id in ids && x == GenreOf(genreMap, id) {
        var id :| id in ids && x == GenreOf(genreMap, id);
        LookedUpIsRendered(ids, genreMap, id);
      }
    }
  }

  lemma RenderedIsLookedUp(ids: set<int>, genreMap: map<int, GenreDto>, x: Option<GenreDto>)
    requires x in RenderedGenres(ids, genreMap)
    ensures exists id :: id in ids && x == GenreOf(genreMap, id)
  {
    var sorted := SortedIds(ids);
    var looked := Lookups(sorted, genreMap);
    var i :| 0 <= i < |looked| && looked[i] == x;
    assert sorted[i] in ids;
  }

  lemma LookedUpIsRendered(ids: set<int>, genreMap: map<int, GenreDto>, id: int)
    requires id in ids
    ensures GenreOf(genreMap, id) in RenderedGenres(ids, genreMap)
  {
    var sorted := SortedIds(ids);
    assert Lookups(sorted, genreMap)[IndexOf(sorted, id)] == GenreOf(genreMap, id);
  }

  /** With every genre id mapped to its own object, as the genre table
      gives them, nothing collapses: one object per genre id, by ascending
      id. */
  lemma {:induction false} CatalogGenresInIdOrder(ids: set<int>, genreMap: map<int, GenreDto>)
    requires forall id :: id in ids ==> id in genreMap && genreMap[id].id == id
    ensures |RenderedGenres(ids, genreMap)| == |ids|
    ensures forall i :: 0 <= i < |ids| ==>
              SortedIds(ids)[i] in genreMap && RenderedGenres(ids, genreMap)[i] == Some(genreMap[SortedIds(ids)[i]])
    ensures forall i, j :: 0 <= i < j < |ids| ==>
              RenderedGenres(ids, genreMap)[i].value.id < RenderedGenres(ids, genreMap)[j].value.id
  {
    var sorted := SortedIds(ids);
    var looked := Lookups(sorted, genreMap);
    forall i | 0 <= i < |looked| ensures sorted[i] in genreMap && looked[i] == Some(genreMap[sorted[i]]) {
      assert sorted[i] in ids;
    }
    forall i, j | 0 <= i < j < |looked| ensures looked[i].value.id < looked[j].value.id {
      assert sorted[i] in ids && sorted[j] in ids;
    }
    DistinctOfUnique(looked);
  }

  /** The genre loop of toDto: each id looked up in turn and the result
      added to an insertion-ordered set. */
  method AddGenres(ids: seq<int>, genreMap: map<int, GenreDto>) returns (genres: seq<Option<GenreDto>>)
    ensures genres == Distinct(Lookups(ids, genreMap))
  {
    genres := [];
    for i := 0 to |ids|
      invariant genres == Distinct(Lookups(ids, genreMap)[..i])
    {
      var genre := if ids[i] in genreMap then Some(genreMap[ids[i]]) else None;
      assert Lookups(ids, genreMap)[..i + 1] == Lookups(ids, genreMap)[..i] + [genre];
      if genre !in genres {
        genres := genres + [genre];
      }
    }
    assert Lookups(ids, genreMap)[..|ids|] == Lookups(ids, genreMap);
  }

  /** toDto: id, scalars and likes copied; the MPA object for a non-null
      MPA id (null when the map lacks it); the genres rendered from the
      ascending genre ids. */
  method ToDto(film: Film, mpaMap: map<int, MpaDto>, genreMap: map<int, GenreDto>) returns (dto: FilmDto)
    ensures dto.id == film.id && dto.name == film.name && dto.description == film.description
    ensures dto.releaseDate == film.releaseDate && dto.duration == film.duration && dto.likes == film.likes
    ensures dto.mpa == if film.mpaId.Some? && film.mpaId.value in mpaMap then Some(mpaMap[film.mpaId.value]) else None
    ensures dto.genres == RenderedGenres(GenreSet(film), genreMap)
  {
    var mpa: Option<MpaDto> := None;
    if film.mpaId.Some? {
      mpa := if film.mpaId.value in mpaMap then Some(mpaMap[film.mpaId.value]) else None;
    }
    var sortedIds: seq<int> := [];
    if film.genreIds.Some? && film.genreIds.value != {} {
      sortedIds := SortedIds(film.genreIds.value);
    }
    assert sortedIds == SortedIds(GenreSet(film));
    var genres := AddGenres(sortedIds, genreMap);
    dto := FilmDto(film.id, film.name, film.description, film.releaseDate, film.duration, film.likes, mpa, genres);
  }

  /** Example: genres 1, 3 and 2 given in any order come back as ids 1, 2,
      3, each once, when the genre map holds all three.  The three lemmas
      after it are its steps. */
  lemma GenreRoundTrip(genreMap: map<int, GenreDto>)
    requires 1 in genreMap && 2 in genreMap && 3 in genreMap
    requires genreMap[1].id == 1 && genreMap[2].id == 2 && genreMap[3].id == 3
    ensures CreateDtoGenreIds(Some({GenreDto(1, None), GenreDto(3, None), GenreDto(2, None)})) == Some({1, 2, 3})
    ensures RenderedGenres({1, 2, 3}, genreMap) == [Some(genreMap[1]), Some(genreMap[2]), Some(genreMap[3])]
  {
    ThreeGenreIds();
    ThreeSorted();
    ThreeLookedUp(genreMap);
    DistinctOfUnique([Some(genreMap[1]), Some(genreMap[2]), Some(genreMap[3])]);
  }

  /** Step of the example: the lookups of ids 1, 2 and 3. */
  lemma ThreeLookedUp(genreMap: map<int, GenreDto>)
    requires 1 in genreMap && 2 in genreMap && 3 in genreMap
    requires genreMap[1].id == 1 && genreMap[2].id == 2 && genreMap[3].id == 3
    ensures Lookups([1, 2, 3], genreMap) == [Some(genreMap[1]), Some(genreMap[2]), Some(genreMap[3])]
    ensures var s := [Some(genreMap[1]), Some(genreMap[2]), Some(genreMap[3])];
            forall i, j :: 0 <= i < j < |s| ==> s[i] != s[j]
  {
    var s := [Some(genreMap[1]), Some(genreMap[2]), Some(genreMap[3])];
    assert forall i :: 0 <= i < |s| ==> s[i].value.id == i + 1;
  }

  /** Step of the example: the genre ids the three objects give. */
  lemma ThreeGenreIds()
    ensures CreateDtoGenreIds(Some({GenreDto(1, None), GenreDto(3, None), GenreDto(2, None)})) == Some({1, 2, 3})
  {
    var given := {GenreDto(1, None), GenreDto(3, None), GenreDto(2, None)};
    assert GenreDto(1, None) in given && GenreDto(2, None) in given && GenreDto(3, None) in given;
    assert GenreIdsOf(given) == {1, 2, 3};
  }

  /** Step of the example: the ascending listing of {1, 2, 3}. */
  lemma ThreeSorted()
    ensures SortedIds({1, 2, 3}) == [1, 2, 3]
  {
    var sorted := SortedIds({1, 2, 3});
    assert sorted[0] in {1, 2, 3} && sorted[1] in {1, 2, 3} && sorted[2] in {1, 2, 3};
    assert sorted[0] < sorted[1] < sorted[2];
  }
}
