/** The profile page: the user's tickets, split into tabs by status, with pay and cancel on the reserved tab. */
module ProfilePage {
  import opened Wrappers
  import opened CinemaTypes
  import opened Collections
  import opened ApiShapes
  import TicketCard

  /** The tab the page opens on. */
  const InitialTab := "reserved"

  /** The tab keys, in order; there is no tab for expired tickets. */
  const TabKeys: seq<string> := ["reserved", "paid", "cancelled"]

  /** `ticketsList`: the shared paginated-or-plain unwrap. */
  function TicketsList(payload: ListPayload<Ticket>): (tickets: seq<Ticket>)
    ensures tickets != [] ==> payload == PlainArray(tickets) || payload == Paginated(Some(tickets))
  {
    UnwrapList(payload)
  }

  function StatusMatcher(tab: string): Ticket -> bool {
    (t: Ticket) => t.status == tab
  }

  /** `filteredTickets`: the tickets whose status is the active tab, in list order. */
  function FilteredTickets(tickets: seq<Ticket>, activeTab: string): (shown: seq<Ticket>)
    ensures |shown| <= |tickets|
    ensures forall i :: 0 <= i < |shown| ==> shown[i] in tickets && shown[i].status == activeTab
    ensures forall i :: 0 <= i < |tickets| && tickets[i].status == activeTab ==> tickets[i] in shown
  {
    Filter(tickets, StatusMatcher(activeTab))
  }

  /** Filtering keeps list order: it distributes over concatenation. */
  lemma FilteredTicketsKeepOrder(a: seq<Ticket>, b: seq<Ticket>, activeTab: string)
    ensures FilteredTickets(a + b, activeTab) == FilteredTickets(a, activeTab) + FilteredTickets(b, activeTab)
  {
    FilterConcat(a, b, StatusMatcher(activeTab));
  }

  /** The page opens on the first tab, and every tab is a ticket status the card has a tag for. */
  lemma TabsAreTicketStatuses()
    ensures InitialTab == TabKeys[0]
    ensures forall k :: k in TabKeys ==> TicketCard.GetStatusTag(k).Some?
    ensures "expired" !in TabKeys
  {
  }

  /** On any tab the page offers, an expired ticket is never listed. */
  lemma ExpiredNeverListed(tickets: seq<Ticket>, activeTab: string, i: int)
    requires activeTab in TabKeys
    requires 0 <= i < |FilteredTickets(tickets, activeTab)|
    ensures FilteredTickets(tickets, activeTab)[i].status != "expired"
  {
  }

  /** The handlers the cards of a tab receive: both on the reserved tab, none elsewhere. */
  function TabHandlers(activeTab: string): (handlers: (Option<TicketCard.Handler>, Option<TicketCard.Handler>))
    ensures handlers.0.Some? <==> activeTab == "reserved"
    ensures handlers.1.Some? <==> activeTab == "reserved"
    ensures handlers.0.Some? ==> handlers.0.value == TicketCard.PayHandler
    ensures handlers.1.Some? ==> handlers.1.value == TicketCard.CancelHandler
  {
    if activeTab == "reserved" then (Some(TicketCard.PayHandler), Some(TicketCard.CancelHandler)) else (None, None)
  }

  /** The status update a handler requests: pay asks for "paid", cancel for "cancelled". */
  datatype StatusUpdate = StatusUpdate(ticketId: int, status: string)

  function HandlerUpdate(call: (TicketCard.Handler, int)): (u: StatusUpdate)
    ensures u.ticketId == call.1
    ensures u.status == (if call.0 == TicketCard.PayHandler then "paid" else "cancelled")
  {
    match call.0
    case PayHandler => StatusUpdate(call.1, "paid")
    case CancelHandler => StatusUpdate(call.1, "cancelled")
  }

  /**
   * End to end: a card listed on a tab shows a pay button exactly when that tab is the reserved
   * one, and pressing it then asks to mark that very ticket paid (cancel: cancelled).
   */
  lemma PayAndCancelOnlyForReservedTickets(tickets: seq<Ticket>, activeTab: string, i: int)
    requires 0 <= i < |FilteredTickets(tickets, activeTab)|
    ensures var t := FilteredTickets(tickets, activeTab)[i];
            var pay := TicketCard.Click(TabHandlers(activeTab).0, t);
            var cancel := TicketCard.Click(TabHandlers(activeTab).1, t);
            (TicketCard.Render(t).showsActions <==> activeTab == "reserved")
            && (pay.Some? <==> TicketCard.Render(t).showsActions)
            && (pay.Some? ==> HandlerUpdate(pay.value) == StatusUpdate(t.id, "paid"))
            && (cancel.Some? ==> HandlerUpdate(cancel.value) == StatusUpdate(t.id, "cancelled"))
  {
  }
}
