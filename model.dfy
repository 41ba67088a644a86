/** The records of the film catalogue: films, users, reference DTOs and the
    errors the stores and services raise.  Java's nullable references become
    Option; an exception becomes the Err / Fail side of Result / Outcome. */
module Model {

  datatype Option<+T> = None | Some(value: T)

  /** Which kind of record a NotFoundException was about. */
  datatype Entity = FilmEntity | UserEntity | GenreEntity | MpaEntity

  /** The business rule a ValidationException reports. */
  datatype Rule =
    | BlankName              // film name null or blank
    | DescriptionTooLong     // film description over 200 UTF-16 units
    | ReleaseTooEarly        // release date before 1895-12-28
    | NonPositiveDuration    // duration <= 0
    | BadEmail               // email null, blank or without '@'
    | BadLogin               // login null, blank or with a space
    | FutureBirthday         // birthday after today
    | SelfFriendship         // a user adding themselves as a friend
    | UnknownUserId          // the list-backed controller's update of an absent id

  datatype Error =
    | NotFound(entity: Entity, id: Option<int>)
    | Validation(rule: Rule)

  /** The value of a call that may throw. */
  datatype Result<+T> = Ok(value: T) | Err(error: Error)

  /** The value of a void call that may throw. */
  datatype Outcome = Pass | Fail(error: Error)

  /** A LocalDate; dates compare lexicographically by year, month, day. */
  datatype Date = Date(year: int, month: int, day: int)

  predicate IsBefore(a: Date, b: Date)
  {
    a.year < b.year
    || (a.year == b.year && (a.month < b.month || (a.month == b.month && a.day < b.day)))
  }

  predicate IsAfter(a: Date, b: Date)
  {
    IsBefore(b, a)
  }

  /** LocalDate's order is strict and total: two dates are equal, or
      exactly one of them lies before the other. */
  lemma DateOrderTotal(a: Date, b: Date)
    ensures a == b || IsBefore(a, b) || IsAfter(a, b)
    ensures !(IsBefore(a, b) && IsAfter(a, b))
    ensures !IsBefore(a, a) && !IsAfter(a, a)
  {
  }

  lemma DateOrderTransitive(a: Date, b: Date, c: Date)
    requires IsBefore(a, b) && IsBefore(b, c)
    ensures IsBefore(a, c)
  {
  }

  /** A film.  genreIds is None when no genre set was ever assigned (the
      source tests it against null); likes is always present. */
  datatype Film = Film(
    id: Option<int>,
    name: Option<string>,
    description: Option<string>,
    releaseDate: Option<Date>,
    duration: int,
    mpaId: Option<int>,
    genreIds: Option<set<int>>,
    likes: set<int>)

  /** A freshly constructed Film: nothing set, no likes. */
  const NewFilm: Film := Film(None, None, None, None, 0, None, None, {})

  /** The genre ids of a film, a missing set read as empty (every reader in
      the source treats null and empty alike). */
  function GenreSet(f: Film): set<int>
  {
    if f.genreIds.Some? then f.genreIds.value else {}
  }

  /** A user with the set of ids they have added as friends. */
  datatype User = User(
    id: Option<int>,
    email: Option<string>,
    login: Option<string>,
    name: Option<string>,
    birthday: Option<Date>,
    friends: set<int>)

  datatype GenreDto = GenreDto(id: int, name: Option<string>)

  /** An MPA rating object; its id is a boxed Integer, so an incoming
      payload may leave it null. */
  datatype MpaDto = MpaDto(id: Option<int>, name: Option<string>)

  /** The read-side view of a film; genres keep the insertion order of the
      LinkedHashSet they were collected in, and an entry may be null. */
  datatype FilmDto = FilmDto(
    id: Option<int>,
    name: Option<string>,
    description: Option<string>,
    releaseDate: Option<Date>,
    duration: int,
    likes: set<int>,
    mpa: Option<MpaDto>,
    genres: seq<Option<GenreDto>>)

  /** An incoming film payload: reference objects for MPA and genres. */
  datatype FilmPayload = FilmPayload(
    id: Option<int>,
    name: Option<string>,
    description: Option<string>,
    releaseDate: Option<Date>,
    duration: int,
    mpa: Option<MpaDto>,
    genres: Option<set<GenreDto>>)

  /** The genre and MPA reference tables, id to name. */
  datatype Catalogs = Catalogs(mpa: map<int, string>, genres: map<int, string>)

  // ---- edge tables ----

  /** The other ends of k's edges. */
  function Targets(edges: set<(int, int)>, k: int): (r: set<int>)
    ensures forall x :: x in r <==> (k, x) in edges
  {
    set e | e in edges && e.0 == k :: e.1
  }
}
