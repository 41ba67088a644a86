# Filmorate core in Dafny

Filmorate is a small film catalogue service. Users register with an email, a login, a display name and a birthday. Films carry a name, a description, a release date, a duration, an MPA rating and a set of genres. Users like films and add other users as friends; friendship is a directed edge. The service lists the most liked films and the friends two users have in common.

This project models the record-keeping behind that:

- **In-memory stores** (`FilmMemory.InMemoryFilmStorage`, `UserMemory.InMemoryUserStorage`): a map from id to record plus an id counter. They cover save, update, find and delete, the like and friend sets changed in place, and the field rules checked before anything is stored.
- **The list-backed user controller** (`Controllers.UserController`): an ordered list plus a counter, and the linear index search of update.
- **The database stores** (`FilmDb.FilmDbStorage`, `UserDb.UserDbStorage`): the tables are a map of rows and a set of id pairs for each edge table (film genres, likes, friendship). The rows a query returns are a parameter, tied to the tables by a predicate. The row-grouping loops (`ExtractData`, `LoadAllLikes`, `LoadAllFriends`) are proved to rebuild exactly the stored records. The popularity query is proved to order by like count, largest first, then by ascending id.
- **The services** (`Films`, `Users`): the order of the gates (field rules, catalogue references, existence of the users involved) before the store is touched. Also the genre and MPA catalogue lookups, the rendering of a film to its DTO, and the popularity ranking, a stable sort by like count.
- **The DTO conversions** (`Dtos`, `Mapper`): incoming genre and MPA objects collapse to ids. On output, genre ids are looked up in ascending order into an insertion-ordered set.
- **Shared modules**: `Model` holds the records and the error values, `Text` the Java string predicates (`isBlank`, UTF-16 `length()`), `Validation` the film and user rules, and `Ranking` ascending listings of id sets, a stable descending sort and `limit`.

Java `null` is `None` of an `Option`. A thrown `NotFoundException` or `ValidationException` is an `Err`/`Fail` value naming the entity or the broken rule. `LocalDate.now()` is a `today` parameter. Where the source iterates a hash map or hash set, the model lists the elements in ascending id order.

## Model

| member | source | states |
|---|---|---|
| Text.IsWhitespace | src/main/java/ru/yandex/practicum/filmorate/storage/film/InMemoryFilmStorage.java:79 | `Character.isWhitespace`, the per-character test behind `String.isBlank` |
| Text.IsBlank | src/main/java/ru/yandex/practicum/filmorate/storage/film/InMemoryFilmStorage.java:79 | `String.isBlank`: empty, or white space only |
| Text.WhitespaceCharacters | src/main/java/ru/yandex/practicum/filmorate/storage/film/InMemoryFilmStorage.java:79 | space, tab, newline and carriage return are white space; the no-break spaces U+00A0, U+2007 and U+202F are not; the empty string is blank and a lone no-break space is not |
| Text.BlankConcat | src/main/java/ru/yandex/practicum/filmorate/storage/user/InMemoryUserStorage.java:93-99 | a concatenation is blank exactly when both parts are |
| Model.IsBefore | src/main/java/ru/yandex/practicum/filmorate/storage/film/InMemoryFilmStorage.java:85 | `LocalDate.isBefore`: lexicographic by year, month, day |
| Model.IsAfter | src/main/java/ru/yandex/practicum/filmorate/storage/user/InMemoryUserStorage.java:102 | `LocalDate.isAfter`: the converse of `isBefore` |
| Model.DateOrderTotal | src/main/java/ru/yandex/practicum/filmorate/storage/film/InMemoryFilmStorage.java:85 | two dates are equal or exactly one lies before the other; no date is before or after itself |
| Model.DateOrderTransitive | src/main/java/ru/yandex/practicum/filmorate/storage/user/InMemoryUserStorage.java:102 | a date before one before a third is before the third |
| Text.Utf16Length | src/main/java/ru/yandex/practicum/filmorate/storage/film/InMemoryFilmStorage.java:82 | `String.length()` counts UTF-16 units: at least one and at most two per character |
| Text.BmpLength | src/main/java/ru/yandex/practicum/filmorate/storage/film/InMemoryFilmStorage.java:82-84 | within the Basic Multilingual Plane the length is the number of characters |
| Text.SupplementaryLength | src/main/java/ru/yandex/practicum/filmorate/storage/film/InMemoryFilmStorage.java:82-84 | every character outside the Basic Multilingual Plane counts twice |
| Validation.ValidateFilm | src/main/java/ru/yandex/practicum/filmorate/storage/film/InMemoryFilmStorage.java:78-91 | passes exactly when the name is not blank, the description is at most 200 units, the release is not before 1895-12-28 and the duration is positive; otherwise it reports the first broken rule in that order, always as a validation error |
| Validation.FilmBoundsAreInclusive | src/main/java/ru/yandex/practicum/filmorate/storage/film/InMemoryFilmStorage.java:82-87 | a 200-character description and a release on 1895-12-28 are accepted; 201 characters, or a release on 1895-12-27, are rejected |
| Validation.SupplementaryDescriptionRejected | src/main/java/ru/yandex/practicum/filmorate/storage/film/InMemoryFilmStorage.java:82-84 | 200 characters outside the Basic Multilingual Plane already break the description limit |
| Validation.CheckUser | src/main/java/ru/yandex/practicum/filmorate/service/UserService.java:61-71 | passes exactly when the email is non-blank with an '@', the login is non-blank without a space and the birthday is not after today; otherwise it reports the first broken rule in that order |
| Validation.WithDefaultName | src/main/java/ru/yandex/practicum/filmorate/storage/user/InMemoryUserStorage.java:99-101 | a null or blank name becomes the login, any other name is kept, nothing else changes; with a valid login the result's name is not blank |
| Validation.CheckUserDefaultingName | src/main/java/ru/yandex/practicum/filmorate/storage/user/InMemoryUserStorage.java:92-105 | same verdict as the non-defaulting check; the name is already defaulted once email and login pass, even when the birthday then fails; a passing user is valid with a non-blank name |
| Validation.BlankNameBecomesLogin | src/main/java/ru/yandex/practicum/filmorate/storage/user/InMemoryUserStorage.java:99-101 | example: a user named "  " with login "jdoe" passes and is named "jdoe" |
| Ranking.MinExists | src/main/java/ru/yandex/practicum/filmorate/service/FilmService.java:111-113 | a non-empty id set has a least element |
| Ranking.SortedIds | src/main/java/ru/yandex/practicum/filmorate/service/FilmService.java:111-113 | the ids of a set in strictly ascending order, each exactly once |
| Ranking.Insert | src/main/java/ru/yandex/practicum/filmorate/service/FilmService.java:56-57 | placing one element into a list adds exactly that element |
| Ranking.SortDesc | src/main/java/ru/yandex/practicum/filmorate/service/FilmService.java:56-57 | the sorted list is a permutation of the input with keys never increasing |
| Ranking.SortDescStable | src/main/java/ru/yandex/practicum/filmorate/service/FilmService.java:57 | elements with the same key keep their relative order |
| Ranking.InsertRanked | src/main/java/ru/yandex/practicum/filmorate/storage/film/FilmDbStorage.java:186 | inserting an id smaller than every listed id keeps the list ordered by key, largest first, then by id |
| Ranking.SortDescRanksAscendingIds | src/main/java/ru/yandex/practicum/filmorate/storage/film/FilmDbStorage.java:186 | stably sorting an ascending id list by key orders it by key descending, then by ascending id |
| Ranking.Take | src/main/java/ru/yandex/practicum/filmorate/service/FilmService.java:58 | `limit(count)` keeps a prefix of `min(count, size)` elements |
| Ranking.ValuesInKeyOrder | src/main/java/ru/yandex/practicum/filmorate/storage/film/InMemoryFilmStorage.java:25-27 | the values of a map, one per key, listed by ascending key |
| Ranking.EveryValueListed | src/main/java/ru/yandex/practicum/filmorate/storage/film/InMemoryFilmStorage.java:25-27 | every value of the map is in the listing |
| Ranking.NoDuplicatesListSet | src/main/java/ru/yandex/practicum/filmorate/storage/user/InMemoryUserStorage.java:78-80 | a duplicate-free list with the members of a set has the set's size |
| FilmMemory.InMemoryFilmStorage.FindAll | src/main/java/ru/yandex/practicum/filmorate/storage/film/InMemoryFilmStorage.java:24-27 | every stored film exactly once, each under its own id |
| FilmMemory.InMemoryFilmStorage.FindById | src/main/java/ru/yandex/practicum/filmorate/storage/film/InMemoryFilmStorage.java:29-36 | the stored film, or NotFound for the id exactly when it is absent |
| FilmMemory.InMemoryFilmStorage.Save | src/main/java/ru/yandex/practicum/filmorate/storage/film/InMemoryFilmStorage.java:38-45 | an invalid film is rejected with the map and the counter unchanged; a valid one gets the counter's value as id, whatever id it had, and is stored under it, and the counter goes up by one |
| FilmMemory.InMemoryFilmStorage.Update | src/main/java/ru/yandex/practicum/filmorate/storage/film/InMemoryFilmStorage.java:47-56 | validation first, then NotFound for an id not stored (map unchanged); otherwise only that entry is replaced |
| FilmMemory.InMemoryFilmStorage.DeleteById | src/main/java/ru/yandex/practicum/filmorate/storage/film/InMemoryFilmStorage.java:58-64 | NotFound for an absent id; otherwise only that key is removed |
| FilmMemory.InMemoryFilmStorage.AddLike | src/main/java/ru/yandex/practicum/filmorate/storage/film/InMemoryFilmStorage.java:66-70 | NotFound for an unknown film; otherwise the user joins that film's like set, a repeat like changes nothing, and no other film changes |
| FilmMemory.InMemoryFilmStorage.RemoveLike | src/main/java/ru/yandex/practicum/filmorate/storage/film/InMemoryFilmStorage.java:72-76 | NotFound for an unknown film; otherwise the user leaves that film's like set, removing a non-liker changes nothing, and no other film changes |
| UserMemory.InMemoryUserStorage.FindAll | src/main/java/ru/yandex/practicum/filmorate/storage/user/InMemoryUserStorage.java:21-24 | every stored user exactly once, each under its own id |
| UserMemory.InMemoryUserStorage.FindById | src/main/java/ru/yandex/practicum/filmorate/storage/user/InMemoryUserStorage.java:26-33 | the stored user, or NotFound for the id exactly when it is absent |
| UserMemory.InMemoryUserStorage.Save | src/main/java/ru/yandex/practicum/filmorate/storage/user/InMemoryUserStorage.java:35-42 | an invalid user is rejected with nothing stored; a valid one is stored with its name defaulted and the counter's value as id, and the counter goes up by one, so ids stay distinct and increasing |
| UserMemory.InMemoryUserStorage.Update | src/main/java/ru/yandex/practicum/filmorate/storage/user/InMemoryUserStorage.java:44-53 | validation first, then NotFound for an id not stored; otherwise only that entry is replaced by the name-defaulted user |
| UserMemory.InMemoryUserStorage.DeleteById | src/main/java/ru/yandex/practicum/filmorate/storage/user/InMemoryUserStorage.java:55-61 | NotFound for an absent id; otherwise only that key is removed |
| UserMemory.InMemoryUserStorage.AddFriend | src/main/java/ru/yandex/practicum/filmorate/storage/user/InMemoryUserStorage.java:63-67 | NotFound for an unknown user; otherwise the friend id joins that user's set only (one direction, idempotent, the friend's existence not checked) |
| UserMemory.InMemoryUserStorage.RemoveFriend | src/main/java/ru/yandex/practicum/filmorate/storage/user/InMemoryUserStorage.java:69-73 | NotFound for an unknown user; otherwise the friend id leaves that user's set only; an absent friend is a no-op |
| UserMemory.InMemoryUserStorage.LookupAll | src/main/java/ru/yandex/practicum/filmorate/storage/user/InMemoryUserStorage.java:78-80 | every id looked up in order; fails exactly when some id is not stored |
| UserMemory.InMemoryUserStorage.GetFriends | src/main/java/ru/yandex/practicum/filmorate/storage/user/InMemoryUserStorage.java:75-81 | NotFound for an unknown user or a dangling friend id; otherwise one stored user per friend id, and a stored user is listed exactly when it is a friend |
| UserMemory.InMemoryUserStorage.FriendsListed | src/main/java/ru/yandex/practicum/filmorate/storage/user/InMemoryUserStorage.java:76-81 | looking up the ascending friend ids lists exactly the stored users who are friends |
| UserMemory.InMemoryUserStorage.GetCommonFriends | src/main/java/ru/yandex/practicum/filmorate/storage/user/InMemoryUserStorage.java:83-90 | the first user's errors first, then the second's; otherwise the first user's friend list filtered to those also in the second's |
| UserMemory.KeepIn | src/main/java/ru/yandex/practicum/filmorate/storage/user/InMemoryUserStorage.java:87-89 | the filter keeps exactly the elements of the first list that are in the second, in the first list's order |
| UserMemory.CommonFriendsAreTheIntersection | src/main/java/ru/yandex/practicum/filmorate/storage/user/InMemoryUserStorage.java:83-90 | a stored user is a common friend exactly when both users follow it |
| Films.GetGenreById | src/main/java/ru/yandex/practicum/filmorate/service/FilmService.java:69-77 | the catalogue row as a DTO, or NotFound for the genre exactly when it is absent |
| Films.GetMpaById | src/main/java/ru/yandex/practicum/filmorate/service/FilmService.java:86-94 | the catalogue row as a DTO carrying the requested id, or NotFound for the rating exactly when it is absent |
| Films.AllGenres | src/main/java/ru/yandex/practicum/filmorate/service/FilmService.java:62-67 | every genre row once, by strictly ascending id, each as the single lookup gives it |
| Films.AllMpa | src/main/java/ru/yandex/practicum/filmorate/service/FilmService.java:79-84 | every rating row once, each with a non-null id, by strictly ascending id, each as the single lookup gives it |
| Films.RowsInIdOrder | src/main/java/ru/yandex/practicum/filmorate/service/FilmService.java:62-67 | rows keyed by their own id are listed by ascending id, all of them |
| Films.MpaRowsInIdOrder | src/main/java/ru/yandex/practicum/filmorate/service/FilmService.java:79-84 | the same for the rating rows |
| Films.ValidateMpaAndGenres | src/main/java/ru/yandex/practicum/filmorate/service/FilmService.java:138-156 | passes exactly when the MPA id (if any) and every genre id are in the catalogues; a missing MPA is reported before any genre; otherwise the error names a missing genre id |
| Films.RenderGenres | src/main/java/ru/yandex/practicum/filmorate/service/FilmService.java:109-117 | over ascending ids: fails exactly when an id is missing, naming it; otherwise one DTO per id, in order, named from the catalogue |
| Films.RenderedInIdOrder | src/main/java/ru/yandex/practicum/filmorate/service/FilmService.java:110-117 | rendering the ascending listing of a set renders one DTO per id of the set, in id order |
| Films.FirstMissIsLeast | src/main/java/ru/yandex/practicum/filmorate/service/FilmService.java:111-116 | the first missing id met in ascending order is the least missing id |
| Films.RenderFilmGenres | src/main/java/ru/yandex/practicum/filmorate/service/FilmService.java:109-118 | succeeds exactly when all the film's genre ids are catalogued, and then renders them in ascending order |
| Films.ToDto | src/main/java/ru/yandex/practicum/filmorate/service/FilmService.java:96-121 | fails exactly when a reference is missing: the MPA first, then the least missing genre id; otherwise id, scalars and likes copied, the MPA present exactly when the film has one, and genres rendered by ascending id |
| Films.LikeCount | src/main/java/ru/yandex/practicum/filmorate/service/FilmService.java:57 | the ranking key, `getLikes().size()` |
| Films.Popular | src/main/java/ru/yandex/practicum/filmorate/service/FilmService.java:55-60 | `min(count, size)` films, a prefix of the stable descending sort by like count |
| Films.PrefixDominates | src/main/java/ru/yandex/practicum/filmorate/service/FilmService.java:57-58 | in a list sorted largest first, nothing after the prefix has a larger key than anything in it |
| Films.PopularIsOrdered | src/main/java/ru/yandex/practicum/filmorate/service/FilmService.java:55-60 | the result's like counts never increase and it is a sub-multiset of the input |
| Films.PopularIsStable | src/main/java/ru/yandex/practicum/filmorate/service/FilmService.java:57 | films with equal like counts keep their input order |
| Films.PopularKeepsTheMostLiked | src/main/java/ru/yandex/practicum/filmorate/service/FilmService.java:57-58 | no film left out has more likes than a film returned |
| Films.FilmService.Create | src/main/java/ru/yandex/practicum/filmorate/service/FilmService.java:33-37 | the field rules, then the catalogue references (a missing MPA reported before any genre); only a film passing both reaches the store and is saved with the next id |
| Films.FilmService.Update | src/main/java/ru/yandex/practicum/filmorate/service/FilmService.java:39-43 | the same gates (a missing MPA reported before any genre), then NotFound for an unknown id; otherwise only that film is replaced |
| Films.FilmService.AddLike | src/main/java/ru/yandex/practicum/filmorate/service/FilmService.java:45-48 | an unknown user is NotFound before any like set is touched; then the store's addLike |
| Films.FilmService.RemoveLike | src/main/java/ru/yandex/practicum/filmorate/service/FilmService.java:50-53 | an unknown user is NotFound before any like set is touched; then the store's removeLike |
| Films.FilmService.GetPopular | src/main/java/ru/yandex/practicum/filmorate/service/FilmService.java:55-60 | the stable descending sort of the store's films by like count, cut to `min(count, size)`; each film as stored |
| Users.UserService.Create | src/main/java/ru/yandex/practicum/filmorate/service/UserService.java:25-28 | an invalid user is rejected with the store unchanged; a valid one is saved with its name defaulted (non-blank) and the next id |
| Users.UserService.Update | src/main/java/ru/yandex/practicum/filmorate/service/UserService.java:30-33 | validation first, then NotFound for an unknown id; otherwise only that user is replaced |
| Users.UserService.AddFriend | src/main/java/ru/yandex/practicum/filmorate/service/UserService.java:35-42 | a self-friendship is a validation error before any lookup; then NotFound for the user, then for the friend; it succeeds exactly when all three checks pass, and then only the user's friend set gains the friend |
| Users.UserService.RemoveFriend | src/main/java/ru/yandex/practicum/filmorate/service/UserService.java:44-48 | NotFound for the user, then for the friend; it succeeds exactly when both exist, and then only the user's friend set loses the friend |
| Users.UserService.GetFriends | src/main/java/ru/yandex/practicum/filmorate/service/UserService.java:50-53 | NotFound for an unknown user; on success a stored user is listed exactly when it is a friend |
| Users.UserService.GetCommonFriends | src/main/java/ru/yandex/practicum/filmorate/service/UserService.java:55-59 | NotFound for the first, then the second user; it succeeds exactly when both are stored and neither has a friend id that is not stored; on success a stored user is listed exactly when both follow it |
| Controllers.UserController.FindAll | src/main/java/ru/yandex/practicum/filmorate/controller/UserController.java:20-23 | the list, in creation order, so by strictly ascending id |
| Controllers.UserController.Create | src/main/java/ru/yandex/practicum/filmorate/controller/UserController.java:25-32 | an invalid user leaves the list and counter alone; a valid one, name defaulted, gets the counter's id and is appended, and the counter goes up by one |
| Controllers.UserController.FindIndex | src/main/java/ru/yandex/practicum/filmorate/controller/UserController.java:37-43 | the first position holding the id, or -1 exactly when no position holds it |
| Controllers.UserController.Update | src/main/java/ru/yandex/practicum/filmorate/controller/UserController.java:34-50 | an unknown id is a validation error (not NotFound) with the list unchanged; otherwise one position holding the id is replaced, and the length and counter are kept |
| Controllers.UpdateTouchesOneUser | src/main/java/ru/yandex/practicum/filmorate/controller/UserController.java:47 | ids being unique, the replaced position is the only one with the id and every other user is kept |
| FilmDb.FromRecord | src/main/java/ru/yandex/practicum/filmorate/storage/film/FilmDbStorage.java:58-68 | the row mapper's film: the columns, the MPA id null exactly when the column is, an empty genre set, no likes |
| FilmDb.RecordOf | src/main/java/ru/yandex/practicum/filmorate/storage/film/FilmDbStorage.java:88-100 | the columns written read back as the film itself, apart from id, genres and likes |
| FilmDb.EdgesFrom | src/main/java/ru/yandex/practicum/filmorate/storage/film/FilmDbStorage.java:130-132 | one (film, genre) pair per genre id, and only those |
| FilmDb.FirstAppearanceMembers | src/main/java/ru/yandex/practicum/filmorate/storage/film/FilmDbStorage.java:55-58 | the films listed are the distinct ids of the rows, each once |
| FilmDb.GenresOfMembers | src/main/java/ru/yandex/practicum/filmorate/storage/film/FilmDbStorage.java:74-77 | a film's genre set is the set of non-null genre ids over all its rows |
| FilmDb.FirstAppearanceOrder | src/main/java/ru/yandex/practicum/filmorate/storage/film/FilmDbStorage.java:55-58 | a film listed earlier first occurs in an earlier row |
| FilmDb.ExtractData | src/main/java/ru/yandex/practicum/filmorate/storage/film/FilmDbStorage.java:52-80 | one film per distinct row id, in first-appearance order, built from the columns of its first row, carrying the genre ids of all its rows |
| FilmDb.AddRow | src/main/java/ru/yandex/practicum/filmorate/storage/film/FilmDbStorage.java:57-77 | one loop step: computeIfAbsent on the row's id, then its genre id, keeping the loop invariant |
| FilmDb.GenresStep | src/main/java/ru/yandex/practicum/filmorate/storage/film/FilmDbStorage.java:74-77 | adding a row's genre id extends exactly that film's genre set |
| FilmDb.UsersOf | src/main/java/ru/yandex/practicum/filmorate/storage/film/FilmDbStorage.java:156-161 | a film's user ids are exactly those of the like rows with its film id |
| FilmDb.LoadAllLikes | src/main/java/ru/yandex/practicum/filmorate/storage/film/FilmDbStorage.java:150-166 | every film, in order, gets exactly the user ids of its like rows, the empty set when it has none |
| FilmDb.FilmDbStorage.Stored | src/main/java/ru/yandex/practicum/filmorate/storage/film/FilmDbStorage.java:31-50 | a film as the tables hold it: its id, its genre edges as genre ids, its like edges as likes |
| FilmDb.FilmDbStorage.JoinRebuildsFilms | src/main/java/ru/yandex/practicum/filmorate/storage/film/FilmDbStorage.java:52-80 | grouping the join rows rebuilds each selected stored film apart from its likes |
| FilmDb.FilmDbStorage.GroupedJoin | src/main/java/ru/yandex/practicum/filmorate/storage/film/FilmDbStorage.java:52-80 | the grouped films are exactly the selected stored ones, each once, apart from likes |
| FilmDb.FilmDbStorage.Query | src/main/java/ru/yandex/practicum/filmorate/storage/film/FilmDbStorage.java:33 | the query with the extractor yields each selected stored film once, apart from likes |
| FilmDb.FilmDbStorage.Select | src/main/java/ru/yandex/practicum/filmorate/storage/film/FilmDbStorage.java:33-35 | the map's values in first-appearance order |
| FilmDb.FilmDbStorage.LikeRowsGrouped | src/main/java/ru/yandex/practicum/filmorate/storage/film/FilmDbStorage.java:150-166 | folding the selected like rows gives each selected film its like edges |
| FilmDb.FilmDbStorage.FindAll | src/main/java/ru/yandex/practicum/filmorate/storage/film/FilmDbStorage.java:31-36 | every stored film exactly once, each as the tables hold it, likes included |
| FilmDb.FilmDbStorage.FilmsAssembled | src/main/java/ru/yandex/practicum/filmorate/storage/film/FilmDbStorage.java:31-36 | likes added to the grouped films give every stored film |
| FilmDb.FilmDbStorage.FindById | src/main/java/ru/yandex/practicum/filmorate/storage/film/FilmDbStorage.java:38-50 | NotFound exactly when the id has no row; otherwise the film as the tables hold it |
| FilmDb.FilmDbStorage.Save | src/main/java/ru/yandex/practicum/filmorate/storage/film/FilmDbStorage.java:83-105 | the columns stored under the generated key, one genre edge per genre id, likes untouched, the film returned with that id |
| FilmDb.FilmDbStorage.SaveGenres | src/main/java/ru/yandex/practicum/filmorate/storage/film/FilmDbStorage.java:128-138 | one genre edge per genre id is added; nothing else changes |
| FilmDb.FilmDbStorage.Update | src/main/java/ru/yandex/practicum/filmorate/storage/film/FilmDbStorage.java:107-126 | NotFound, tables unchanged, when no row has the id (a null id matches none); otherwise the columns are replaced and the film's genre edges become exactly its genre ids |
| FilmDb.FilmDbStorage.AddLike | src/main/java/ru/yandex/practicum/filmorate/storage/film/FilmDbStorage.java:140-143 | the (film, user) edge is present afterwards; nothing else changes |
| FilmDb.FilmDbStorage.RemoveLike | src/main/java/ru/yandex/practicum/filmorate/storage/film/FilmDbStorage.java:145-148 | only the (film, user) edge goes |
| FilmDb.FilmDbStorage.DeleteById | src/main/java/ru/yandex/practicum/filmorate/storage/film/FilmDbStorage.java:174-177 | only the films row goes; an absent id is no error; edges are not cascaded |
| FilmDb.FilmDbStorage.PopularIds | src/main/java/ru/yandex/practicum/filmorate/storage/film/FilmDbStorage.java:179-188 | `min(count, size)` stored ids |
| FilmDb.FilmDbStorage.PopularIdsRanked | src/main/java/ru/yandex/practicum/filmorate/storage/film/FilmDbStorage.java:180-188 | ordered by like count descending, then id ascending; no film left out outranks one returned |
| FilmDb.FilmDbStorage.GetPopular | src/main/java/ru/yandex/practicum/filmorate/storage/film/FilmDbStorage.java:179-202 | one film per selected id, in order, built from its columns with no genres and no likes |
| FilmDb.CountOf | src/main/java/ru/yandex/practicum/filmorate/storage/film/FilmDbStorage.java:182-185 | a film's count is the number of its like edges, zero without any |
| FilmDb.TopIsPartOf | src/main/java/ru/yandex/practicum/filmorate/storage/film/FilmDbStorage.java:186-187 | `LIMIT n` over an ordering keeps `min(n, size)` of the ids |
| FilmDb.TopOfRanking | src/main/java/ru/yandex/practicum/filmorate/storage/film/FilmDbStorage.java:186-187 | over ascending ids the limited list is ranked, and nothing left out outranks it |
| FilmDb.PrefixOutranksRest | src/main/java/ru/yandex/practicum/filmorate/storage/film/FilmDbStorage.java:186-187 | in a ranked list each of the first n ids outranks every id after them |
| UserDb.FromRecord | src/main/java/ru/yandex/practicum/filmorate/storage/user/UserDbStorage.java:146-154 | the row mapper's user: the columns and an empty friend set |
| UserDb.RecordOf | src/main/java/ru/yandex/practicum/filmorate/storage/user/UserDbStorage.java:52-62 | the columns written read back as the user itself, apart from id and friends |
| UserDb.UsersFrom | src/main/java/ru/yandex/practicum/filmorate/storage/user/UserDbStorage.java:29 | one mapped user per row, in row order |
| UserDb.FriendIdsOf | src/main/java/ru/yandex/practicum/filmorate/storage/user/UserDbStorage.java:129-133 | a user's friend ids are exactly those of the friendship rows with its user id |
| UserDb.LoadAllFriends | src/main/java/ru/yandex/practicum/filmorate/storage/user/UserDbStorage.java:118-138 | every user, in order, gets exactly the friend ids of its rows, the empty set when it has none |
| UserDb.UserDbStorage.Bare | src/main/java/ru/yandex/practicum/filmorate/storage/user/UserDbStorage.java:146-154 | a stored user as one row maps to it, no friends loaded |
| UserDb.UserDbStorage.Stored | src/main/java/ru/yandex/practicum/filmorate/storage/user/UserDbStorage.java:34-44 | a user as the tables hold it: its columns and its outgoing edges |
| UserDb.UserDbStorage.RowsAreTheSelectedUsers | src/main/java/ru/yandex/practicum/filmorate/storage/user/UserDbStorage.java:29 | mapping the selected rows gives each selected stored user exactly once |
| UserDb.UserDbStorage.FriendRowsGrouped | src/main/java/ru/yandex/practicum/filmorate/storage/user/UserDbStorage.java:118-138 | folding the selected friendship rows gives each selected user its outgoing edges |
| UserDb.UserDbStorage.FindAll | src/main/java/ru/yandex/practicum/filmorate/storage/user/UserDbStorage.java:26-32 | every stored user exactly once, friends included |
| UserDb.UserDbStorage.UsersAssembled | src/main/java/ru/yandex/practicum/filmorate/storage/user/UserDbStorage.java:26-32 | friends added to the mapped rows give every stored user |
| UserDb.UserDbStorage.FindById | src/main/java/ru/yandex/practicum/filmorate/storage/user/UserDbStorage.java:34-44 | NotFound exactly when the id has no row; otherwise the user as the tables hold it |
| UserDb.UserDbStorage.Save | src/main/java/ru/yandex/practicum/filmorate/storage/user/UserDbStorage.java:46-66 | the name defaulted to the login when null or blank, the columns stored under the generated key, friendship untouched |
| UserDb.UserDbStorage.Update | src/main/java/ru/yandex/practicum/filmorate/storage/user/UserDbStorage.java:78-93 | NotFound when no row has the id; otherwise the columns replaced as given, with no name default |
| UserDb.UserDbStorage.DeleteById | src/main/java/ru/yandex/practicum/filmorate/storage/user/UserDbStorage.java:95-98 | only the users row goes; an absent id is no error; edges are not cascaded |
| UserDb.UserDbStorage.AddFriend | src/main/java/ru/yandex/practicum/filmorate/storage/user/UserDbStorage.java:100-104 | the merge leaves exactly one (user, friend) edge, a repeat add changes nothing, and only that user's targets grow |
| UserDb.UserDbStorage.RemoveFriend | src/main/java/ru/yandex/practicum/filmorate/storage/user/UserDbStorage.java:106-110 | only the directed (user, friend) edge goes; the reverse edge survives |
| UserDb.UserDbStorage.GetFriends | src/main/java/ru/yandex/practicum/filmorate/storage/user/UserDbStorage.java:112-116 | exactly the stored users at the end of the user's outgoing edges, each once, without their friends |
| UserDb.UserDbStorage.GetCommonFriends | src/main/java/ru/yandex/practicum/filmorate/storage/user/UserDbStorage.java:68-76 | exactly the stored users that both users have an edge to, each once |
| Dtos.GenreIdsOf | src/main/java/ru/yandex/practicum/filmorate/dto/FilmCreateDto.java:30-36 | the set of ids of the genre objects |
| Dtos.GenreIdsAtMostGenres | src/main/java/ru/yandex/practicum/filmorate/dto/FilmRequest.java:31-34 | duplicate ids collapse: never more ids than genre objects |
| Dtos.SameIdCollapses | src/main/java/ru/yandex/practicum/filmorate/dto/FilmRequest.java:31-34 | example: two genre objects with one id give a single id |
| Dtos.CollectGenreIds | src/main/java/ru/yandex/practicum/filmorate/dto/FilmCreateDto.java:31-35 | the loop collects exactly the ids of the genre objects |
| Dtos.Converted | src/main/java/ru/yandex/practicum/filmorate/dto/FilmCreateDto.java:19-28 | the converted film: scalars copied, the MPA id the MPA object's own id (null when the object or its id is null), no likes |
| Dtos.CreateDtoGenreIds | src/main/java/ru/yandex/practicum/filmorate/dto/FilmCreateDto.java:30-36 | genre ids are set exactly when the genre set is present and not empty, and then they are its ids |
| Dtos.RequestGenreIds | src/main/java/ru/yandex/practicum/filmorate/dto/FilmRequest.java:30-36 | genre ids are set exactly when the genre set is present, the empty one included |
| Dtos.GenreRulesDifferOnlyOnEmpty | src/main/java/ru/yandex/practicum/filmorate/dto/FilmRequest.java:30-36 | the two DTO rules disagree exactly on a present but empty genre set |
| Dtos.CreateDtoToFilm | src/main/java/ru/yandex/practicum/filmorate/dto/FilmCreateDto.java:19-39 | a fresh film with the scalars, the MPA object's id (null for no object or a null id) and the FilmCreateDto genre rule |
| Dtos.RequestToFilm | src/main/java/ru/yandex/practicum/filmorate/dto/FilmRequest.java:19-39 | a fresh film with the scalars, the MPA object's id (null for no object or a null id) and the FilmRequest genre rule |
| Mapper.ToFilm | src/main/java/ru/yandex/practicum/filmorate/mapper/FilmMapper.java:14-35 | the id and scalars copied, the MPA object's id (null for no object or a null id), genre ids only for a non-empty genre set |
| Mapper.GenreOf | src/main/java/ru/yandex/practicum/filmorate/mapper/FilmMapper.java:56 | `genreMap.get(id)`: the map's object, or null |
| Mapper.Lookups | src/main/java/ru/yandex/practicum/filmorate/mapper/FilmMapper.java:55-57 | each id looked up in turn, null for an id the map lacks |
| Mapper.Distinct | src/main/java/ru/yandex/practicum/filmorate/mapper/FilmMapper.java:50-57 | an insertion-ordered set: the same members, none twice, no more than given |
| Mapper.DistinctOfUnique | src/main/java/ru/yandex/practicum/filmorate/mapper/FilmMapper.java:50-57 | a list without repeats goes into the set unchanged |
| Mapper.RenderedGenresContents | src/main/java/ru/yandex/practicum/filmorate/mapper/FilmMapper.java:50-59 | no genre entry twice, and an entry exactly for each value some genre id maps to |
| Mapper.CatalogGenresInIdOrder | src/main/java/ru/yandex/practicum/filmorate/mapper/FilmMapper.java:51-57 | when each id maps to its own genre, one entry per id, by strictly ascending id |
| Mapper.AddGenres | src/main/java/ru/yandex/practicum/filmorate/mapper/FilmMapper.java:55-57 | the loop adds the looked-up genres to the insertion-ordered set |
| Mapper.ToDto | src/main/java/ru/yandex/practicum/filmorate/mapper/FilmMapper.java:37-62 | id, scalars and likes copied; the MPA is the map's entry when the film has an MPA id (null when the map lacks it); genres rendered by ascending id |
| Mapper.GenreRoundTrip | src/main/java/ru/yandex/practicum/filmorate/mapper/FilmMapper.java:26-59 | example: genres 1, 3, 2 convert to the id set {1, 2, 3} and render back as genres 1, 2, 3 in that order |

## Left out

- The genre DTO class is not part of this model; its id is taken to be a non-null integer, whereas the MPA object's id is modelled as nullable, as `MpaDto` declares it.
- JDBC itself (JdbcTemplate, KeyHolder, PreparedStatement, the SQL text): tables are a map and sets of id pairs, and the rows a query returns are a parameter tied to the tables by a predicate. The generated key is a parameter not yet in the table.
- FilmDb.FilmDbStorage.Save, UserDb.UserDbStorage.Save: require a release date or birthday, because `Date.valueOf` on null throws NullPointerException (FilmDbStorage.java:92, UserDbStorage.java:60); that exception is not modelled.
- FilmDb.FilmDbStorage.Update, UserDb.UserDbStorage.Update: require a release date or birthday, although the source throws nothing there: it hands a null date to the UPDATE, which writes SQL NULL. The schema is not part of this model, so whether a NOT NULL column refuses that write is open. If the write succeeds, the next read of that row fails, because the row mappers call `toLocalDate` on the null date (FilmDbStorage.java:64 and 195, UserDbStorage.java:152). The model's tables hold only dated rows, so neither the NULL write nor the failing read is modelled.
- Database constraints (foreign keys, NOT NULL, uniqueness) and cascades are not modelled. Deleting a row leaves its edges behind, as the code does.
- FilmDb.FilmDbStorage.AddLike: a set union, so a repeated like changes nothing. The source runs a plain INSERT (FilmDbStorage.java:142), not the MERGE addFriend uses. Without the schema, a repeat either fails on a key conflict or stores a second row, which `COUNT(l.user_id)` in getPopular would then count twice. Neither outcome is modelled: the likes table is a set of pairs.
- FilmDb.LoadAllLikes, UserDb.LoadAllFriends: require every record to carry an id, as every caller's records do.
- FilmMemory.InMemoryFilmStorage.Update, UserMemory.InMemoryUserStorage.Update, Films.FilmService.Update, Users.UserService.Update: require an id, since a null key makes ConcurrentHashMap throw NullPointerException.
- Concurrency: ConcurrentHashMap is a plain map.
- FilmMemory.InMemoryFilmStorage.Save, UserMemory.InMemoryUserStorage.Save, Controllers.UserController.Create: the id counter is an unbounded integer. The source's `long nextId` would wrap to a negative id after 2^63 - 1 saves; the model does not capture that.
- Logging, Spring wiring and the Lombok annotations. The services are bound to the in-memory stores; against the store interface the service logic is the same.
- Aliasing: a Film or User object shared between a store and a caller, and changed in place, is modelled as replacing the map entry.
- Hash order: the order of ConcurrentHashMap.values() and of HashSet iteration is modelled as ascending id wherever a listing is returned. Films.ValidateMpaAndGenres checks the genre ids in an unspecified order and promises only that the error names some missing id.
- UserService.findAll/findById and FilmService.findAll/findById are pure delegation and have no members of their own.
- FilmController, GenreController and MpaController are HTTP routing. FilmController's only rule, `count > 0`, is the precondition of the getPopular members. GenreDbStorage and MpaDbStorage are single-row catalogue lookups, modelled as the `Catalogs` maps.
- Integer unboxing: the DTOs' duration is an `Integer` unboxed into the film's `int`, so a null duration throws NullPointerException in the source. The model's duration is always an integer, and that exception is not modelled.
- FilmMapper.toFilm reads an id that FilmCreateDto (as shown) does not have. Both are modelled over one payload record carrying an optional id, which `Mapper.ToFilm` copies and the DTOs' own conversions ignore.
- String length: the code measures a description with `String.length()`, in UTF-16 units, so characters outside the Basic Multilingual Plane count twice. The model follows the code rather than a character count.
- Friendship status and the timestamps of Friendship have no behaviour in the code and are not modelled.
