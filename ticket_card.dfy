/** A ticket in the profile: its status tag, its pay and cancel buttons and its date lines. */
module TicketCard {
  import opened Wrappers
  import opened CinemaTypes
  import opened JsText

  /** An antd tag: its text and its colour. */
  datatype StatusTag = StatusTag(text: string, color: string)

  /** `getStatusTag`: one tag per known status, none for any other string. */
  function GetStatusTag(status: string): (tag: Option<StatusTag>)
    ensures tag.None? <==> status !in ["reserved", "paid", "cancelled", "expired"]
    ensures status == "reserved" ==> tag == Some(StatusTag("Забронирован", "warning"))
    ensures status == "paid" ==> tag == Some(StatusTag("Оплачен", "success"))
    ensures status == "cancelled" ==> tag == Some(StatusTag("Отменен", "error"))
    ensures status == "expired" ==> tag == Some(StatusTag("Истек срок", "default"))
  {
    match status
    case "reserved" => Some(StatusTag("Забронирован", "warning"))
    case "paid" => Some(StatusTag("Оплачен", "success"))
    case "cancelled" => Some(StatusTag("Отменен", "error"))
    case "expired" => Some(StatusTag("Истек срок", "default"))
    case _ => None
  }

  /** Different known statuses get different tags. */
  lemma StatusTagsDistinct(a: string, b: string)
    requires GetStatusTag(a).Some? && GetStatusTag(a) == GetStatusTag(b)
    ensures a == b
  {
  }

  /** The handlers a card may be given: the page's pay and cancel actions. */
  datatype Handler = PayHandler | CancelHandler

  /** The parts of a card that depend on the ticket; the dates are the raw strings before formatting. */
  datatype CardView = CardView(
    tag: Option<StatusTag>,
    showsActions: bool,
    reservedUntilLine: Option<string>,
    paidAtLine: Option<string>)

  function Render(t: Ticket): (v: CardView)
    ensures v.tag == GetStatusTag(t.status)
    ensures v.showsActions <==> t.status == "reserved"
    ensures v.reservedUntilLine.Some? <==> TruthyString(t.reservedUntil) && t.status == "reserved"
    ensures v.reservedUntilLine.Some? ==> v.reservedUntilLine == t.reservedUntil
    ensures v.paidAtLine.Some? <==> TruthyString(t.paidAt)
    ensures v.paidAtLine.Some? ==> v.paidAtLine == t.paidAt
  {
    CardView(
      GetStatusTag(t.status),
      t.status == "reserved",
      if TruthyString(t.reservedUntil) && t.status == "reserved" then t.reservedUntil else None,
      if TruthyString(t.paidAt) then t.paidAt else None)
  }

  /** A card with action buttons always carries the reserved tag; a card with a paid-at line may have any status. */
  lemma ActionsOnlyOnReservedTag(t: Ticket)
    ensures Render(t).showsActions ==> Render(t).tag == Some(StatusTag("Забронирован", "warning"))
    ensures Render(t).reservedUntilLine.Some? ==> Render(t).showsActions
  {
  }

  /** A button click: `onX?.(ticket.id)` calls the handler with the ticket's id, or does nothing without one. */
  function Click(handler: Option<Handler>, t: Ticket): (call: Option<(Handler, int)>)
    ensures call.None? <==> handler.None?
    ensures call.Some? ==> call.value == (handler.value, t.id)
  {
    if handler.Some? then Some((handler.value, t.id)) else None
  }
}
