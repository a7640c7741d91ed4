/**
 * The admin sessions page: the price field's formatter and parser, the start time the edit
 * form is filled with, and what its submit sends.
 */
module SessionsAdmin {
  import opened Wrappers
  import opened CinemaTypes
  import opened JsText
  import opened ApiShapes

  /** `sessionsList`, `hallsList` and `moviesList`: the shared paginated-or-plain unwrap. */
  function SessionsList(payload: ListPayload<Session>): (sessions: seq<Session>)
    ensures sessions != [] ==> payload == PlainArray(sessions) || payload == Paginated(Some(sessions))
  {
    UnwrapList(payload)
  }

  const Currency := " ₽"

  /** The price input's `formatter` (and the price column's template): the value followed by " ₽". */
  function FormatPrice(value: string): (text: string)
    ensures |text| == |value| + |Currency|
    ensures text[..|value|] == value && text[|value|..] == Currency
  {
    value + Currency
  }

  /** The price input's `parser`: the first " ₽" removed. */
  function ParsePrice(text: string): (value: string)
    ensures !Contains(text, Currency) ==> value == text
  {
    ReplaceFirst(text, Currency, "")
  }

  /** The parser undoes the formatter for every value that does not itself contain " ₽". */
  lemma ParseFormattedPrice(value: string)
    requires !Contains(value, Currency)
    ensures ParsePrice(FormatPrice(value)) == value
  {
    var s := FormatPrice(value);
    forall j | 0 <= j < |value| ensures !OccursAt(s, Currency, j) {
      if j + |Currency| <= |value| {
        assert s[j..j + |Currency|] == value[j..j + |Currency|];
        assert !OccursAt(value, Currency, j);
      } else {
        assert s[j + 1] == ' ';
      }
    }
    assert OccursAt(s, Currency, |value|);
    var i := IndexOfFrom(s, Currency, 0);
    assert i == |value|;
  }

  /** In particular a number's text reads back unchanged. */
  lemma ParseFormattedNumber(price: int)
    ensures ParsePrice(FormatPrice(IntToString(price))) == IntToString(price)
  {
    var v := IntToString(price);
    forall k | 0 <= k <= |v| ensures !OccursAt(v, Currency, k) {
      if k + |Currency| <= |v| {
        assert v[k..k + |Currency|][0] == v[k] != ' ';
      }
    }
    ParseFormattedPrice(v);
  }

  /** The price column renders the session's price, or "undefined ₽" when the server sent none. */
  function PriceColumn(price: Option<int>): (text: string)
    ensures price.Some? ==> text == FormatPrice(IntToString(price.value))
    ensures price.None? ==> text == FormatPrice("undefined")
  {
    FormatPrice(if price.Some? then IntToString(price.value) else "undefined")
  }

  /**
   * `handleEdit`'s start time: the server's "date time" split at spaces, glued back as
   * `${date}T${time}`; a missing time part reads "undefined".
   */
  function EditStartTime(startTime: string): (text: string)
    ensures ' ' !in startTime ==> text == startTime + "Tundefined"
  {
    var parts := Split(startTime, ' ');
    parts[0] + "T" + (if |parts| >= 2 then parts[1] else "undefined")
  }

  /** A "date time" with exactly one space becomes "dateTtime". */
  lemma EditStartTimeOneSpace(date: string, time: string)
    requires ' ' !in date && ' ' !in time
    ensures EditStartTime(date + " " + time) == date + "T" + time
  {
    SplitAround(date, time, ' ');
  }

  /** Without a space the time part is the word "undefined". */
  lemma EditStartTimeNoSpace(startTime: string)
    requires ' ' !in startTime
    ensures EditStartTime(startTime) == startTime + "Tundefined"
  {
  }

  /** The form's values; `D` is the date picker's value type. An empty field is `None`. */
  datatype SessionForm<D> = SessionForm(movieId: Option<int>, hallId: Option<int>, startTime: Option<D>, price: Option<int>)

  /** The edit form for a session, where `parse` is the date library reading the glued start time. */
  function EditForm<D>(s: Session, parse: string -> D): (f: SessionForm<D>)
    ensures f.movieId == Some(s.movieId) && f.hallId == Some(s.hallId) && f.price == s.price
    ensures f.startTime == Some(parse(EditStartTime(s.startTime)))
  {
    SessionForm(Some(s.movieId), Some(s.hallId), Some(parse(EditStartTime(s.startTime))), s.price)
  }

  /**
   * The form's messages: each empty field is "required"; a price below 0 is refused, while an
   * empty price gets only the "required" message.
   */
  function FormErrors<D>(f: SessionForm<D>): (errors: seq<string>)
    ensures errors == [] <==> f.movieId.Some? && f.hallId.Some? && f.startTime.Some? && f.price.Some? && f.price.value >= 0
    ensures "Цена не может быть отрицательной" in errors <==> f.price.Some? && f.price.value < 0
  {
    (if f.movieId.None? then ["Выберите фильм"] else [])
    + (if f.hallId.None? then ["Выберите зал"] else [])
    + (if f.startTime.None? then ["Выберите дату и время"] else [])
    + (if f.price.None? then ["Введите цену билета"]
       else if f.price.value < 0 then ["Цена не может быть отрицательной"] else [])
  }

  datatype SessionPayload = SessionPayload(movieId: int, hallId: int, startTime: string, price: int)

  /**
   * `handleSubmit`: nothing while a field is invalid; else the values with the start time formatted
   * by `format` ("YYYY-MM-DD HH:mm:ss"), as an update of the edited session or a creation.
   */
  function SessionSubmit<D>(editingId: Option<int>, f: SessionForm<D>, format: D -> string): (m: Option<Mutation<SessionPayload>>)
    ensures m.Some? <==> FormErrors(f) == []
    ensures m.Some? ==> m.value == SubmitMutation(editingId,
              SessionPayload(f.movieId.value, f.hallId.value, format(f.startTime.value), f.price.value))
  {
    if FormErrors(f) == [] then
      Some(SubmitMutation(editingId, SessionPayload(f.movieId.value, f.hallId.value, format(f.startTime.value), f.price.value)))
    else None
  }

  /**
   * Opening a session for editing and saving it sends the same session back, provided the date
   * library formats what it parsed from "dateTtime" as "date time".
   */
  lemma EditThenSubmit<D>(s: Session, date: string, time: string, parse: string -> D, format: D -> string)
    requires s.startTime == date + " " + time && ' ' !in date && ' ' !in time
    requires format(parse(date + "T" + time)) == s.startTime
    requires s.price.Some? && s.price.value >= 0
    ensures SessionSubmit(Some(s.id), EditForm(s, parse), format)
            == Some(Update(s.id, SessionPayload(s.movieId, s.hallId, s.startTime, s.price.value)))
  {
    EditStartTimeOneSpace(date, time);
  }

  /** A session the server sent without a price cannot be saved until a price is typed in. */
  lemma MissingPriceBlocksSave<D>(s: Session, parse: string -> D, format: D -> string)
    requires s.price.None?
    ensures SessionSubmit(Some(s.id), EditForm(s, parse), format).None?
    ensures FormErrors(EditForm(s, parse)) == ["Введите цену билета"]
  {
  }
}
