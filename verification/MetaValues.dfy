/** Filters as they arrive, and the coercions that all their evaluators share. */
module MetaValues {

  datatype Option<T> = None | Some(value: T)

  /** Why a filter is refused. */
  datatype Refusal = NoKey | UnknownOp | BadValue | BadLogic

  datatype Result<T> = Ok(value: T) | Err(why: Refusal)

  /** A filter value as it arrives; `shown` is its Python `str`. */
  datatype Value = Null | Text(s: string) | Number(shown: string) | Items(shown: string)

  datatype Op =
    | Eq | Ne | Gt | Lt | Ge | Le | In | NotIn | Contains | NotContains | StartWith | EndWith | Empty | NotEmpty
    | Unsupported

  datatype Filter = Filter(op: Op, key: Value, value: Value)

  function Shown(v: Value): string {
    match v
    case Null => "None"
    case Text(s) => s
    case Number(shown) => shown
    case Items(shown) => shown
  }

  /** A coerced scalar: text, or a number or boolean by its printed form. */
  datatype Scalar = Word(s: string) | Num(shown: string)

  /** `_coerce_string`: a non-empty scalar, as text. */
  function CoerceString(v: Value): (r: Option<string>)
    ensures r.Some? <==> !v.Null? && !v.Items? && Shown(v) != ""
    ensures r.Some? ==> r.value == Shown(v)
  {
    if v.Null? || v.Items? || Shown(v) == "" then None else Some(Shown(v))
  }
}
