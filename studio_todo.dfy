/** The studio's `todo` document: the "required when done" validator and the list preview. */
module StudioTodo {
  import opened JsText
  import opened StudioValues

  /**
   * `requireWhenDone(message)(value, context)`, with `status` the
   * document's `status` (`undefined` when there is no document).
   */
  function RequireWhenDone(message: string, value: JsValue, status: JsValue): (r: Validation)
    ensures status != Str("done") ==> r == Valid
    ensures status == Str("done") ==> (r == Valid <==> Truthy(value))
    ensures r.Invalid? ==> r.message == message
  {
    if status != Str("done") then Valid
    else if Truthy(value) then Valid
    else Invalid(message)
  }

  /** `status.replace('_', ' ')` changes the first `_` to a space and nothing else. */
  lemma ReplaceFirstUnderscore(status: string)
    ensures var r := ReplaceFirst(status, '_', ' ');
      && |r| == |status|
      && ('_' !in status ==> r == status)
      && ('_' in status ==>
            var k := FirstIndex(status, '_');
            && '_' !in status[..k]
            && r[k] == ' '
            && forall i :: 0 <= i < |status| && i != k ==> r[i] == status[i])
  {
  }

  /** `status ? status.replace('_', ' ') : 'todo'`, where a missing status counts as empty. */
  function StatusLabel(status: string): (shown: string)
    ensures status == "" ==> shown == "todo"
    ensures status != "" ==> |shown| == |status|
    ensures status != "" && '_' !in status ==> shown == status
    ensures status != "" && '_' in status ==> shown == ReplaceFirst(status, '_', ' ')
  {
    if status != "" then
      ReplaceFirstUnderscore(status);
      ReplaceFirst(status, '_', ' ')
    else "todo"
  }

  /**
   * The todo preview: the title or "Untitled todo", and status, priority
   * (or "medium") and date label joined by the separator.
   */
  function TodoPreview(title: string, status: string, priority: string, completedAt: string,
                       format: string -> string): (p: Preview)
    ensures p.title == if title != "" then title else "Untitled todo"
    ensures var head := StatusLabel(status) + Separator + (if priority != "" then priority else "medium") + Separator;
      StartsWith(p.subtitle, head) && p.subtitle[|head|..] == DateOr(completedAt, format, "Not completed")
  {
    var head := StatusLabel(status) + Separator + OrElse(priority, "medium") + Separator;
    var subtitle := head + DateOr(completedAt, format, "Not completed");
    assert subtitle[..|head|] == head;
    Preview(OrElse(title, "Untitled todo"), subtitle)
  }
}
