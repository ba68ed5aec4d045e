/**
 * Values the content-studio rules receive and return: a JavaScript value as
 * far as the rules inspect it, the `true`-or-message result of a custom
 * validator, and the separator the preview subtitles put between fields.
 */
module StudioValues {
  /** A JavaScript value. Numbers are integers here; `Obj` is any non-null object that is not an array. */
  datatype JsValue =
    | Undefined
    | Null
    | Bool(b: bool)
    | Num(n: int)
    | Str(s: string)
    | Arr(elems: seq<JsValue>)
    | Obj

  /** JavaScript truthiness: `undefined`, `null`, `false`, `0` and `""` are falsy. */
  predicate Truthy(v: JsValue)
  {
    match v
    case Undefined => false
    case Null => false
    case Bool(b) => b
    case Num(n) => n != 0
    case Str(s) => s != ""
    case Arr(_) => true
    case Obj => true
  }

  /** A custom validator's answer: `true`, or the message to show. */
  datatype Validation = Valid | Invalid(message: string)

  /** What a document's `preview.prepare` returns, apart from its media. */
  datatype Preview = Preview(title: string, subtitle: string)

  /** The subtitle separator: a space, U+00B7 MIDDLE DOT and a space. */
  const Separator: string := " \U{00B7} "

  /** `a || fallback` on strings, where a missing string counts as empty. */
  function OrElse(a: string, fallback: string): (r: string)
    ensures a != "" ==> r == a
    ensures a == "" ==> r == fallback
  {
    if a != "" then a else fallback
  }

  /**
   * `date ? new Date(date).toLocaleDateString(...) : placeholder`, with the
   * locale formatter given as `format`.
   */
  function DateOr(date: string, format: string -> string, placeholder: string): (shown: string)
    ensures date != "" ==> shown == format(date)
    ensures date == "" ==> shown == placeholder
  {
    if date != "" then format(date) else placeholder
  }
}
