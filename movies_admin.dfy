/**
 * The admin movies page: the table's derived columns, the edit form filled from a movie, the
 * payload its submit sends, and the years the release-year picker allows.
 */
module MoviesAdmin {
  import opened Wrappers
  import opened CinemaTypes
  import opened JsText
  import opened ApiShapes

  /** `moviesList`: the shared paginated-or-plain unwrap. */
  function MoviesList(payload: ListPayload<Movie>): (movies: seq<Movie>)
    ensures movies != [] ==> payload == PlainArray(movies) || payload == Paginated(Some(movies))
  {
    UnwrapList(payload)
  }

  /** `duration_minutes || duration || 0`: a zero or absent value counts as missing. */
  function Duration(m: Movie): (d: int)
    ensures TruthyInt(m.durationMinutes) ==> d == m.durationMinutes.value
    ensures !TruthyInt(m.durationMinutes) && TruthyInt(m.duration) ==> d == m.duration.value
    ensures !TruthyInt(m.durationMinutes) && !TruthyInt(m.duration) ==> d == 0
  {
    if TruthyInt(m.durationMinutes) then m.durationMinutes.value
    else if TruthyInt(m.duration) then m.duration.value
    else 0
  }

  /** A zero `duration_minutes` is passed over in favour of `duration`. */
  lemma ZeroDurationFallsBack(m: Movie, d: int)
    requires m.durationMinutes == Some(0) && m.duration == Some(d) && d != 0
    ensures Duration(m) == d
  {
  }

  /** The duration column. */
  function DurationText(m: Movie): (text: string)
    ensures var n := |IntToString(Duration(m))|;
            |text| == n + 5 && text[..n] == IntToString(Duration(m)) && text[n..] == " мин."
  {
    IntToString(Duration(m)) + " мин."
  }

  /** The rating column: `r/10` for a truthy rating, otherwise "no rating" (so a rating of 0 shows none). */
  function RatingText(rating: Option<int>): (text: string)
    ensures TruthyInt(rating) ==> text == IntToString(rating.value) + "/10"
    ensures !TruthyInt(rating) ==> text == "Нет оценки"
  {
    if TruthyInt(rating) then IntToString(rating.value) + "/10" else "Нет оценки"
  }

  /** Any shown rating text ends in "/10" exactly when there is a non-zero rating. */
  lemma RatingTextDistinguishesZero(r: int)
    ensures RatingText(Some(0)) == RatingText(None)
    ensures r != 0 ==> RatingText(Some(r)) != RatingText(None)
  {
    if r != 0 {
      var t := RatingText(Some(r));
      assert t[|t| - 3..] == "/10";
      assert "Нет оценки"[|"Нет оценки"| - 3..] != "/10";
    }
  }

  /** The status column: its text and its colour. */
  datatype Tag = Tag(text: string, color: string)

  function StatusTag(isActive: bool): (tag: Tag)
    ensures isActive ==> tag == Tag("Активен", "#52c41a")
    ensures !isActive ==> tag == Tag("Неактивен", "#ff4d4f")
  {
    if isActive then Tag("Активен", "#52c41a") else Tag("Неактивен", "#ff4d4f")
  }

  /** The year picker's `disabledDate`: no value disables nothing; otherwise years outside 1900..now+5. */
  predicate YearDisabled(current: Option<int>, currentYear: int): (disabled: bool)
    ensures current.None? ==> !disabled
    ensures current.Some? && 1900 <= current.value <= currentYear + 5 ==> !disabled
  {
    current.Some? && (current.value < 1900 || current.value > currentYear + 5)
  }

  /** The selectable years are exactly 1900 through five years from now. */
  lemma SelectableYears(y: int, currentYear: int)
    ensures !YearDisabled(Some(y), currentYear) <==> 1900 <= y <= currentYear + 5
    ensures !YearDisabled(None, currentYear)
  {
  }

  /** The movie form's values; an empty field is `None`. `year` is the year of the picked date. */
  datatype MovieForm = MovieForm(
    title: Option<string>,
    description: Option<string>,
    director: Option<string>,
    genre: Option<string>,
    year: Option<int>,
    durationMinutes: Option<int>,
    rating: Option<int>,
    posterUrl: Option<string>,
    isActive: Option<bool>)

  /** A new movie's form: empty, with `is_active` on. */
  const NewMovieForm := MovieForm(None, None, None, None, None, None, None, None, Some(true))

  /**
   * `handleEdit`: the movie's fields as received (the director included, when the record has
   * one), the duration fallback, and a picked year only for a truthy release year.
   */
  function EditForm(m: Movie): (f: MovieForm)
    ensures f.year.Some? <==> m.releaseYear != 0
    ensures f.year.Some? ==> f.year.value == m.releaseYear
    ensures f.durationMinutes == Some(Duration(m))
    ensures f.title == Some(m.title) && f.description == Some(m.description) && f.genre == Some(m.genre)
    ensures f.posterUrl == Some(m.posterUrl) && f.isActive == Some(m.isActive) && f.rating == m.rating
    ensures f.director == m.director
  {
    MovieForm(Some(m.title), Some(m.description), m.director, Some(m.genre),
              if TruthyInt(Some(m.releaseYear)) then Some(m.releaseYear) else None,
              Some(Duration(m)), m.rating, Some(m.posterUrl), Some(m.isActive))
  }

  predicate MissingText(v: Option<string>) {
    !TruthyString(v)
  }

  /** The form's "required" messages, in field order; the form submits only without any. */
  function FormErrors(f: MovieForm): (errors: seq<string>)
    ensures errors == [] <==>
              TruthyString(f.title) && TruthyString(f.description) && TruthyString(f.director) && TruthyString(f.genre)
              && f.year.Some? && f.durationMinutes.Some? && TruthyString(f.posterUrl)
  {
    (if MissingText(f.title) then ["Введите название фильма"] else [])
    + (if MissingText(f.description) then ["Введите описание фильма"] else [])
    + (if MissingText(f.director) then ["Введите имя режиссера"] else [])
    + (if MissingText(f.genre) then ["Введите жанр фильма"] else [])
    + (if f.year.None? then ["Выберите год выпуска"] else [])
    + (if f.durationMinutes.None? then ["Введите длительность фильма"] else [])
    + (if MissingText(f.posterUrl) then ["Введите URL постера"] else [])
  }

  /** A new movie's form, saved untouched, raises every "required" message and sends nothing; it starts active. */
  lemma NewMovieFormIsIncomplete()
    ensures FormErrors(NewMovieForm) == [
      "Введите название фильма", "Введите описание фильма", "Введите имя режиссера", "Введите жанр фильма",
      "Выберите год выпуска", "Введите длительность фильма", "Введите URL постера"]
    ensures MovieSubmit(None, NewMovieForm).None?
    ensures NewMovieForm.isActive == Some(true)
  {
  }

  /** What submit sends: the form's fields with `release_year` taken from the picked date; the date itself is dropped. */
  datatype MoviePayload = MoviePayload(
    title: Option<string>,
    description: Option<string>,
    director: Option<string>,
    genre: Option<string>,
    releaseYear: Option<int>,
    durationMinutes: Option<int>,
    rating: Option<int>,
    posterUrl: Option<string>,
    isActive: Option<bool>)

  function Payload(f: MovieForm): (p: MoviePayload)
    ensures p.releaseYear == f.year
    ensures p.title == f.title && p.description == f.description && p.director == f.director && p.genre == f.genre
    ensures p.durationMinutes == f.durationMinutes && p.rating == f.rating
    ensures p.posterUrl == f.posterUrl && p.isActive == f.isActive
  {
    MoviePayload(f.title, f.description, f.director, f.genre, f.year, f.durationMinutes, f.rating, f.posterUrl, f.isActive)
  }

  /** `handleSubmit`: nothing without valid fields; else update the edited movie, or create one. */
  function MovieSubmit(editingId: Option<int>, f: MovieForm): (m: Option<Mutation<MoviePayload>>)
    ensures m.Some? <==> FormErrors(f) == []
    ensures m.Some? ==> m.value == SubmitMutation(editingId, Payload(f))
  {
    if FormErrors(f) == [] then Some(SubmitMutation(editingId, Payload(f))) else None
  }

  /**
   * Editing a complete movie and saving it untouched sends the movie back unchanged, except
   * that the duration is the fallback value.
   */
  lemma EditThenSubmit(m: Movie)
    requires m.releaseYear != 0 && TruthyString(m.director)
    requires m.title != "" && m.description != "" && m.genre != "" && m.posterUrl != ""
    ensures var sent := MovieSubmit(Some(m.id), EditForm(m));
            sent.Some? && sent.value.Update? && sent.value.id == m.id
            && sent.value.values.director == m.director && sent.value.values.description == Some(m.description)
            && sent.value.values.posterUrl == Some(m.posterUrl)
            && sent.value.values.releaseYear == Some(m.releaseYear)
            && sent.value.values.durationMinutes == Some(Duration(m))
            && sent.value.values.title == Some(m.title) && sent.value.values.genre == Some(m.genre)
            && sent.value.values.isActive == Some(m.isActive) && sent.value.values.rating == m.rating
  {
  }

  /** A movie whose release year is 0 opens with no year picked, so it cannot be saved until one is. */
  lemma ZeroYearBlocksSave(m: Movie)
    requires m.releaseYear == 0
    ensures MovieSubmit(Some(m.id), EditForm(m)).None?
    ensures "Выберите год выпуска" in FormErrors(EditForm(m))
  {
  }

  /** A record without a director opens with an empty director field, which must be filled in before saving. */
  lemma MissingDirectorBlocksSave(m: Movie)
    requires !TruthyString(m.director)
    ensures MovieSubmit(Some(m.id), EditForm(m)).None?
    ensures "Введите имя режиссера" in FormErrors(EditForm(m))
  {
  }
}
