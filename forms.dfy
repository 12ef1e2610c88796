/** The request-field behaviour the serializers rely on: a field is either
    accepted with its cleaned value or refused with a problem, and the
    refusals of all fields are collected before any object-level check runs. */
module Forms {
  import opened Wrappers
  import opened Text

  /** Why one field of a request was refused. */
  datatype Problem =
    | Required                    // the field is missing (or null)
    | Blank                       // a text field that is empty after trimming
    | BelowMinimum(minimum: int)  // a number below the field's `min_value`
    | NotAChoice                  // a value outside a choice field's choices
    | NotUnique                   // a value a unique column already holds
    | InvalidPassword             // refused by the password validators
    | UnknownId                   // a related id that names no stored row
    | Rejected(message: string)   // refused by a serializer's own validator

  datatype FieldError = FieldError(field: string, problem: Problem)

  /** A required text field that may not be blank; the value is trimmed first. */
  function RequiredText(raw: Option<string>): (r: Result<string, Problem>)
    ensures r.Success? <==> raw.Some? && !AllSpace(raw.value)
    ensures r.Success? ==> r.value == Strip(raw.value) && r.value != []
    ensures raw.None? ==> r == Failure(Required)
  {
    if raw.None? then Failure(Required)
    else
      StripEmptyIffAllSpace(raw.value);
      if Strip(raw.value) == [] then Failure(Blank) else Success(Strip(raw.value))
  }

  /** A required number field with a lower bound. */
  function RequiredAmount(raw: Option<int>, minimum: int): (r: Result<int, Problem>)
    ensures r.Success? <==> raw.Some? && raw.value >= minimum
    ensures r.Success? ==> r.value == raw.value
  {
    if raw.None? then Failure(Required)
    else if raw.value < minimum then Failure(BelowMinimum(minimum))
    else Success(raw.value)
  }

  /** An optional number field with a lower bound: absence is accepted. */
  function OptionalAmount(raw: Option<int>, minimum: int): (r: Result<Option<int>, Problem>)
    ensures r.Success? <==> (raw.Some? ==> raw.value >= minimum)
    ensures r.Success? ==> r.value == raw
  {
    if raw.Some? && raw.value < minimum then Failure(BelowMinimum(minimum)) else Success(raw)
  }

  /** The error list contributed by one field. */
  function ErrorsOf<T>(field: string, r: Result<T, Problem>): (e: seq<FieldError>)
    ensures e == [] <==> r.Success?
    ensures r.Failure? ==> e == [FieldError(field, r.error)]
  {
    if r.Failure? then [FieldError(field, r.error)] else []
  }
}
