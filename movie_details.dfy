/** The movie details page: the date chosen by default and the sessions shown for the chosen date. */
module MovieDetails {
  import opened Wrappers
  import opened CinemaTypes
  import opened Collections

  /** `grouped_sessions`: the date keys with their sessions, in the object's key order. */
  type GroupedSessions = seq<(string, seq<Session>)>

  /** The date buttons: the keys, in key order. */
  function DateKeys(grouped: GroupedSessions): (dates: seq<string>)
    ensures |dates| == |grouped|
    ensures forall i :: 0 <= i < |dates| ==> dates[i] == grouped[i].0
  {
    seq(|grouped|, i requires 0 <= i < |grouped| => grouped[i].0)
  }

  /**
   * `onSettled`: once the movie arrives, the first date is chosen when there are dates and none
   * is chosen yet; otherwise the choice stays.
   */
  function SettledDate(current: string, grouped: Option<GroupedSessions>): (date: string)
    ensures current == "" && grouped.Some? && |grouped.value| > 0 ==> date == DateKeys(grouped.value)[0]
    ensures current != "" || grouped.None? || |grouped.value| == 0 ==> date == current
  {
    if grouped.Some? && |grouped.value| > 0 && current == "" then grouped.value[0].0 else current
  }

  /**
   * The sessions passed to the list: `grouped_sessions[selectedDate]` for a chosen date, where
   * `None` stands for `undefined` (a date that is not a key); `[]` while no date is chosen.
   */
  function SessionsShown(grouped: GroupedSessions, selectedDate: string): (shown: Option<seq<Session>>)
    ensures selectedDate == "" ==> shown == Some([])
    ensures selectedDate != "" && shown.None? ==> selectedDate !in DateKeys(grouped)
    ensures selectedDate != "" && shown.Some? ==>
              exists i :: 0 <= i < |grouped| && grouped[i] == (selectedDate, shown.value)
  {
    if selectedDate == "" then Some([]) else Lookup(grouped, selectedDate)
  }

  /**
   * As written: the page passes `onSettled` to `useQuery`, but the query library it is built on
   * (the version with `mutation.isPending`) does not call a query's `onSettled`. The selection
   * therefore stays empty after load, and a first date with sessions shows none until a click.
   */
  lemma AsWrittenNoSessionsAfterLoad(grouped: GroupedSessions)
    requires |grouped| > 0 && grouped[0].0 != "" && |grouped[0].1| > 0
    ensures SessionsShown(grouped, "") == Some([])
    ensures SessionsShown(grouped, "") != SessionsShown(grouped, SettledDate("", Some(grouped)))
  {
  }

  /**
   * Intended: once the movie has loaded and `onSettled` has chosen a date, the page shows the
   * sessions of its first date (unless that key is empty).
   */
  lemma FirstDateShownAfterLoad(grouped: GroupedSessions)
    requires |grouped| > 0 && grouped[0].0 != ""
    ensures SessionsShown(grouped, SettledDate("", Some(grouped))) == Some(grouped[0].1)
  {
  }

  /** A date picked from the buttons always finds its sessions. */
  lemma PickedDateHasSessions(grouped: GroupedSessions, i: int)
    requires 0 <= i < |grouped| && grouped[i].0 != ""
    ensures SessionsShown(grouped, DateKeys(grouped)[i]).Some?
  {
  }

  /** The page's chosen date. */
  class MovieDetailsState {
    var selectedDate: string

    constructor ()
      ensures selectedDate == ""
    {
      selectedDate := "";
    }

    /** A date button click. */
    method SelectDate(date: string)
      modifies this
      ensures selectedDate == date
    {
      selectedDate := date;
    }

    /** The intended `onSettled`: the query settles with the movie's `grouped_sessions`, if any. */
    method Settled(grouped: Option<GroupedSessions>)
      modifies this
      ensures selectedDate == SettledDate(old(selectedDate), grouped)
    {
      if grouped.Some? && |grouped.value| > 0 && selectedDate == "" {
        selectedDate := grouped.value[0].0;
      }
    }
  }
}
