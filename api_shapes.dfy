/**
 * Two shapes every list page shares: the list payload that is either a paginated page
 * or a plain array, and the create-or-update choice of an admin form's submit.
 */
module ApiShapes {
  import opened Wrappers

  /**
   * The `data` field of a list response, as the pages distinguish it:
   * falsy (`Missing`), an object with a `data` key (`Paginated`, whose inner value may
   * itself be falsy), a plain array, or any other truthy value.
   */
  datatype ListPayload<T> =
    | Missing
    | Paginated(inner: Option<seq<T>>)
    | PlainArray(items: seq<T>)
    | OtherValue

  /** The list a page shows for a payload. It never invents items. */
  function UnwrapList<T>(payload: ListPayload<T>): (list: seq<T>)
    ensures list != [] ==> payload == PlainArray(list) || payload == Paginated(Some(list))
  {
    match payload
    case Paginated(inner) => inner.GetOr([])
    case PlainArray(items) => items
    case _ => []
  }

  /** Both server formats give the list they carry. */
  lemma UnwrapBothFormats<T>(items: seq<T>)
    ensures UnwrapList(PlainArray(items)) == items
    ensures UnwrapList(Paginated(Some(items))) == items
  {
  }

  /** No data, a page without a list, and any other value all give the empty list. */
  lemma UnwrapFallbacks<T>()
    ensures UnwrapList<T>(Missing) == []
    ensures UnwrapList<T>(Paginated(None)) == []
    ensures UnwrapList<T>(OtherValue) == []
  {
  }

  /** What an admin form's submit sends: a create, or an update of the record being edited. */
  datatype Mutation<V> = Create(values: V) | Update(id: int, values: V)

  /** `if (editing) update(editing.id, values) else create(values)`. */
  function SubmitMutation<V>(editingId: Option<int>, values: V): (m: Mutation<V>)
    ensures m.values == values
    ensures m.Update? <==> editingId.Some?
    ensures m.Update? ==> m.id == editingId.value
  {
    if editingId.Some? then Update(editingId.value, values) else Create(values)
  }
}
