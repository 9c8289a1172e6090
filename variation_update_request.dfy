/** The request body of a single-variation update and its validator. */
module VariationUpdateRequest {
  import opened Common

  /** Every field is optional; `None` means "leave unchanged". */
  datatype VariationUpdate = VariationUpdate(
    title: Option<string>,
    js: Option<string>,
    css: Option<string>)

  const AtLeastOneFieldMessage := "At least one field (title, js, css) must be provided!"

  /** `check_at_least_one_field`: accepted unchanged exactly when some
      field is present; an empty string counts as present. */
  function CheckAtLeastOneField(req: VariationUpdate): (r: Result<VariationUpdate>)
    ensures r.Ok? <==> (req.title.Some? || req.js.Some? || req.css.Some?)
    ensures r.Ok? ==> r.value == req
    ensures r.Err? ==> r.error == Validation(AtLeastOneFieldMessage)
  {
    if req.title.None? && req.js.None? && req.css.None? then Err(Validation(AtLeastOneFieldMessage))
    else Ok(req)
  }
}
