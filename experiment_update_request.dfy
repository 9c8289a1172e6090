/** The request body of an experiment update and its two validators. */
module ExperimentUpdateRequest {
  import opened Common
  import opened Entities

  /** Every field is optional; `None` means "leave unchanged". */
  datatype ExperimentUpdate = ExperimentUpdate(
    title: Option<string>,
    js: Option<string>,
    css: Option<string>,
    experimentType: Option<string>,
    status: Option<ExperimentStatus>,
    url: Option<string>,
    description: Option<string>,
    triggerType: Option<string>,
    conditionType: Option<ConditionType>)

  const InvalidUrlMessage := "Invalid URL format!"
  const AtLeastOneFieldMessage := "At least one field must be provided for update!"

  predicate AnyFieldPresent(req: ExperimentUpdate)
  {
    || req.title.Some? || req.js.Some? || req.css.Some?
    || req.experimentType.Some? || req.status.Some? || req.url.Some?
    || req.description.Some? || req.triggerType.Some? || req.conditionType.Some?
  }

  /** `validate_url`: an absent url passes; a present one passes
      unchanged iff it is an http(s) URL (`isHttpUrl` stands for the
      URL grammar of the validation library). */
  function ValidateUrl(url: Option<string>, isHttpUrl: string -> bool): (r: Result<Option<string>>)
    ensures r.Ok? <==> (url.None? || isHttpUrl(url.value))
    ensures r.Ok? ==> r.value == url
    ensures r.Err? ==> r.error == Validation(InvalidUrlMessage)
  {
    if url.Some? && !isHttpUrl(url.value) then Err(Validation(InvalidUrlMessage)) else Ok(url)
  }

  /** `check_at_least_one_field`: rejected iff all nine fields are absent. */
  function CheckAtLeastOneField(req: ExperimentUpdate): (r: Result<ExperimentUpdate>)
    ensures r.Ok? <==> AnyFieldPresent(req)
    ensures r.Ok? ==> r.value == req
    ensures r.Err? ==> r.error == Validation(AtLeastOneFieldMessage)
  {
    if !AnyFieldPresent(req) then Err(Validation(AtLeastOneFieldMessage)) else Ok(req)
  }

  /** Both validators in the order the request model runs them: the
      field validator on `url` first, then the whole-model check. */
  function ValidateExperimentUpdate(req: ExperimentUpdate, isHttpUrl: string -> bool): (r: Result<ExperimentUpdate>)
    ensures r.Ok? <==> (req.url.None? || isHttpUrl(req.url.value)) && AnyFieldPresent(req)
    ensures r.Ok? ==> r.value == req
    ensures req.url.Some? && !isHttpUrl(req.url.value) ==> r == Err(Validation(InvalidUrlMessage))
    ensures (req.url.None? || isHttpUrl(req.url.value)) && !AnyFieldPresent(req) ==>
      r == Err(Validation(AtLeastOneFieldMessage))
  {
    match ValidateUrl(req.url, isHttpUrl)
    case Err(e) => Err(e)
    case Ok(_) => CheckAtLeastOneField(req)
  }
}
