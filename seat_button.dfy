/** One seat button of the seat map: its look, whether it is disabled, and what a click does. */
module SeatButton {
  import opened Wrappers
  import opened CinemaTypes
  import JsText

  datatype ButtonType = Primary | Default

  datatype SeatStyle = SeatStyle(background: string, border: string, color: string)

  const SoldSeatStyle := SeatStyle("#ff4d4f", "#ff4d4f", "#fff")
  const ReservedSeatStyle := SeatStyle("#faad14", "#faad14", "#fff")

  datatype ButtonProps = ButtonProps(kind: ButtonType, danger: bool, style: Option<SeatStyle>)

  /** The props a seat button receives; `status` is `None` when the caller does not pass one. */
  datatype SeatProps = SeatProps(row: int, seat: int, status: Option<SeatStatus>, isSelected: bool)

  /** What the button shows: its props, whether it is disabled, the `onSelect` call a click makes, its caption (the label text). */
  datatype SeatView = SeatView(props: ButtonProps, disabled: bool, click: Option<(int, int)>, caption: string)

  /** The `switch` on the status: highlight a selected free seat, paint sold and reserved seats. */
  function GetButtonProps(p: SeatProps): (b: ButtonProps)
    ensures b.kind == Primary <==> p.status == Some(Available) && p.isSelected
    ensures b.danger <==> p.status == Some(Sold)
    ensures b.style.Some? <==> p.status == Some(Sold) || p.status == Some(Reserved)
    ensures p.status == Some(Sold) ==> b.style == Some(SoldSeatStyle)
    ensures p.status == Some(Reserved) ==> b.style == Some(ReservedSeatStyle)
  {
    match p.status
    case Some(Available) => ButtonProps(if p.isSelected then Primary else Default, false, None)
    case Some(Sold) => ButtonProps(Default, true, Some(SoldSeatStyle))
    case Some(Reserved) => ButtonProps(Default, false, Some(ReservedSeatStyle))
    case None => ButtonProps(Default, false, None)
  }

  /** Sold and reserved seats are disabled; every other status, a missing one included, is not. */
  predicate IsDisabled(status: Option<SeatStatus>): (disabled: bool)
    ensures disabled <==> status.Some? && !status.value.Available?
  {
    status == Some(Sold) || status == Some(Reserved)
  }

  /** The click guard `!isDisabled && onSelect(row, seat)`. */
  function OnClick(p: SeatProps): (call: Option<(int, int)>)
    ensures call.Some? <==> !IsDisabled(p.status)
    ensures call.Some? ==> call.value == (p.row, p.seat)
  {
    if IsDisabled(p.status) then None else Some((p.row, p.seat))
  }

  function Render(p: SeatProps): (v: SeatView)
    ensures v.disabled == IsDisabled(p.status)
    ensures v.click.Some? <==> !v.disabled
    ensures v.caption == JsText.IntToString(p.seat)
  {
    SeatView(GetButtonProps(p), IsDisabled(p.status), OnClick(p), JsText.IntToString(p.seat))
  }

  /** A seat painted as danger or highlighted as selected is never in the other state, and danger implies disabled. */
  lemma ButtonStatesConsistent(p: SeatProps)
    ensures GetButtonProps(p).danger ==> IsDisabled(p.status) && GetButtonProps(p).kind == Default
    ensures GetButtonProps(p).kind == Primary ==> !IsDisabled(p.status)
  {
  }
}
