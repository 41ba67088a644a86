/** The field rules for films and users.  The film rules are written out once
    and shared by the in-memory film store and the film service, which hold
    the same four checks in the same order. */
module Validation {

  import opened Model
  import opened Text

  const MaxDescriptionLength: nat := 200

  /** The first public film screening; no release may precede it. */
  const EarliestRelease: Date := Date(1895, 12, 28)

  // ---- films ----

  predicate NameOk(f: Film)
  {
    !NullOrBlank(f.name)
  }

  predicate DescriptionOk(f: Film)
  {
    f.description.None? || Utf16Length(f.description.value) <= MaxDescriptionLength
  }

  predicate ReleaseOk(f: Film)
  {
    f.releaseDate.None? || !IsBefore(f.releaseDate.value, EarliestRelease)
  }

  predicate DurationOk(f: Film)
  {
    f.duration > 0
  }

  /** The four film rules, independent of the order they are checked in. */
  predicate FilmIsValid(f: Film)
  {
    NameOk(f) && DescriptionOk(f) && ReleaseOk(f) && DurationOk(f)
  }

  /** validateFilm: the rules are checked in order name, description,
      release, duration and the first one broken is reported. */
  function ValidateFilm(f: Film): (r: Outcome)
    ensures r == Pass <==> FilmIsValid(f)
    ensures r.Fail? ==> r.error.Validation?
    ensures !NameOk(f) ==> r == Fail(Validation(BlankName))
    ensures NameOk(f) && !DescriptionOk(f) ==> r == Fail(Validation(DescriptionTooLong))
    ensures NameOk(f) && DescriptionOk(f) && !ReleaseOk(f) ==> r == Fail(Validation(ReleaseTooEarly))
    ensures (NameOk(f) && DescriptionOk(f) && ReleaseOk(f) && !DurationOk(f))
              ==> r == Fail(Validation(NonPositiveDuration))
  {
    if f.name.None? || IsBlank(f.name.value) then Fail(Validation(BlankName))
    else if f.description.Some? && Utf16Length(f.description.value) > 200 then Fail(Validation(DescriptionTooLong))
    else if f.releaseDate.Some? && IsBefore(f.releaseDate.value, Date(1895, 12, 28)) then Fail(Validation(ReleaseTooEarly))
    else if f.duration <= 0 then Fail(Validation(NonPositiveDuration))
    else Pass
  }

  /** The bounds are inclusive: a description of exactly 200 characters of the
      Basic Multilingual Plane and a release on 1895-12-28 itself pass, while
      one more character or one day earlier fails. */
  lemma {:induction false} FilmBoundsAreInclusive(f: Film, d: string, extra: char)
    requires NameOk(f) && DurationOk(f)
    requires InBmp(d) && |d| == 200 && extra as int <= 0xFFFF
    ensures ValidateFilm(f.(description := Some(d), releaseDate := Some(EarliestRelease))) == Pass
    ensures ValidateFilm(f.(description := Some(d + [extra]), releaseDate := Some(EarliestRelease)))
              == Fail(Validation(DescriptionTooLong))
    ensures ValidateFilm(f.(description := Some(d), releaseDate := Some(Date(1895, 12, 27))))
              == Fail(Validation(ReleaseTooEarly))
  {
    BmpLength(d);
    assert InBmp(d + [extra]) by {
      forall i | 0 <= i < |d + [extra]| ensures (d + [extra])[i] as int <= 0xFFFF {
        if i < |d| { assert (d + [extra])[i] == d[i]; }
      }
    }
    BmpLength(d + [extra]);
  }

  /** 200 characters outside the Basic Multilingual Plane are 400 UTF-16
      units: String.length() rejects them although they are 200 code points. */
  lemma {:induction false} SupplementaryDescriptionRejected(f: Film, d: string)
    requires NameOk(f)
    requires |d| == 200 && forall i :: 0 <= i < |d| ==> d[i] as int > 0xFFFF
    ensures ValidateFilm(f.(description := Some(d))) == Fail(Validation(DescriptionTooLong))
  {
    SupplementaryLength(d);
  }

  // ---- users ----

  predicate EmailOk(email: Option<string>)
  {
    !NullOrBlank(email) && '@' in email.value
  }

  predicate LoginOk(login: Option<string>)
  {
    !NullOrBlank(login) && ' ' !in login.value
  }

  predicate BirthdayOk(birthday: Option<Date>, today: Date)
  {
    birthday.None? || !IsAfter(birthday.value, today)
  }

  predicate UserIsValid(u: User, today: Date)
  {
    EmailOk(u.email) && LoginOk(u.login) && BirthdayOk(u.birthday, today)
  }

  /** UserService.validateUser: email, then login, then birthday; the name is
      not examined and not changed. */
  function CheckUser(u: User, today: Date): (r: Outcome)
    ensures r == Pass <==> UserIsValid(u, today)
    ensures !EmailOk(u.email) ==> r == Fail(Validation(BadEmail))
    ensures EmailOk(u.email) && !LoginOk(u.login) ==> r == Fail(Validation(BadLogin))
    ensures (EmailOk(u.email) && LoginOk(u.login) && !BirthdayOk(u.birthday, today))
              ==> r == Fail(Validation(FutureBirthday))
  {
    if u.email.None? || IsBlank(u.email.value) || '@' !in u.email.value then Fail(Validation(BadEmail))
    else if u.login.None? || IsBlank(u.login.value) || ' ' in u.login.value then Fail(Validation(BadLogin))
    else if u.birthday.Some? && IsAfter(u.birthday.value, today) then Fail(Validation(FutureBirthday))
    else Pass
  }

  /** A null or blank display name replaced by the login.  Once the login
      has passed its rule the name is never blank. */
  function WithDefaultName(u: User): (r: User)
    ensures r == u.(name := r.name)
    ensures !NullOrBlank(u.name) ==> r == u
    ensures NullOrBlank(u.name) ==> r.name == u.login
    ensures LoginOk(u.login) ==> !NullOrBlank(r.name)
  {
    if u.name.None? || IsBlank(u.name.value) then u.(name := u.login) else u
  }

  /** The user as a defaulting validateUser leaves it, with its verdict. */
  datatype Checked = Checked(user: User, outcome: Outcome)

  /** validateUser of the in-memory user store and of the list-backed
      controller: the same verdict as CheckUser, but the name is defaulted
      between the login and the birthday checks, so a user rejected only for
      the birthday comes back already renamed. */
  function CheckUserDefaultingName(u: User, today: Date): (r: Checked)
    ensures r.outcome == CheckUser(u, today)
    ensures EmailOk(u.email) && LoginOk(u.login) ==> r.user == WithDefaultName(u)
    ensures !(EmailOk(u.email) && LoginOk(u.login)) ==> r.user == u
    ensures r.outcome == Pass ==> !NullOrBlank(r.user.name) && UserIsValid(r.user, today)
  {
    if u.email.None? || IsBlank(u.email.value) || '@' !in u.email.value then Checked(u, Fail(Validation(BadEmail)))
    else if u.login.None? || IsBlank(u.login.value) || ' ' in u.login.value then Checked(u, Fail(Validation(BadLogin)))
    else
      var named := if u.name.None? || IsBlank(u.name.value) then u.(name := u.login) else u;
      if named.birthday.Some? && IsAfter(named.birthday.value, today) then Checked(named, Fail(Validation(FutureBirthday)))
      else Checked(named, Pass)
  }

  /** Example: a user named blank with login "jdoe" is stored as "jdoe". */
  lemma BlankNameBecomesLogin(u: User, today: Date)
    requires u.email == Some("jdoe@mail.ru") && u.login == Some("jdoe") && u.name == Some("  ")
    requires u.birthday == Some(Date(1990, 1, 1)) && !IsBefore(today, Date(1990, 1, 1))
    ensures CheckUserDefaultingName(u, today) == Checked(u.(name := Some("jdoe")), Pass)
  {
    assert IsBlank(u.name.value) by { assert u.name.value[0] == ' ' && u.name.value[1] == ' '; }
    assert !IsBlank(u.login.value) by { assert !IsWhitespace(u.login.value[0]); }
    assert '@' in u.email.value by { assert u.email.value[4] == '@'; }
  }
}
