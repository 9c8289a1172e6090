/** Experiment creation, listing and partial update. */
module ExperimentService {
  import opened Common
  import opened Entities
  import opened ExperimentStore
  import opened ExperimentUpdateRequest
  import opened Pagination

  /** The fields `createExperiment` reads from its request. */
  datatype ExperimentCreate = ExperimentCreate(
    projectId: int,
    title: string,
    experimentType: string,
    url: Option<string>,
    status: ExperimentStatus,
    triggerType: string,
    conditionType: ConditionType,
    description: Option<string>,
    js: Option<string>,
    css: Option<string>)

  datatype ExperimentCreated = ExperimentCreated(id: int, title: string, status: ExperimentStatus)

  const ControlTitle := "Control"

  /** The default variation every new experiment starts with; its ids
      are assigned by the store. */
  const Control := Variation(0, 0, ControlTitle, 100, None, None)

  /** The experiment `createExperiment` builds before saving it. */
  function NewExperiment(req: ExperimentCreate): (e: Experiment)
    ensures |e.variations| == 1 && e.variations[0].title == ControlTitle && e.variations[0].traffic == 100
    ensures e.variations[0].js.None? && e.variations[0].css.None?
    ensures TrafficTotal(e.variations) == 100
    ensures e.conditions == [] && e.metrics == []
    ensures e.projectId == req.projectId && e.title == req.title && e.status == req.status
    ensures e.experimentType == req.experimentType && e.url == req.url && e.description == req.description
    ensures e.triggerType == req.triggerType && e.conditionType == req.conditionType
    ensures e.js == req.js && e.css == req.css
  {
    var e := Experiment(0, req.title, req.projectId, req.experimentType, req.status, req.url,
      req.description, req.triggerType, req.conditionType, req.js, req.css, [], [], []);
    assert [Control][..0] == [];
    e.(variations := e.variations + [Control])
  }

  /** `createExperiment`: `projectLookup` is the outcome of looking the
      project up; its error is passed on and nothing is saved. Otherwise
      the new experiment with its Control variation is saved and the
      store's id, the title and the status are returned. */
  method CreateExperiment(repo: ExperimentRepository, projectLookup: Result<int>, req: ExperimentCreate)
    returns (r: Result<ExperimentCreated>)
    requires repo.Valid()
    modifies repo
    ensures repo.Valid()
    ensures projectLookup.Err? ==> r == Err(projectLookup.error) && unchanged(repo)
    ensures projectLookup.Ok? ==>
      && repo.experiments == old(repo.experiments) + [NewExperiment(req).(id := old(repo.nextId))]
      && r == Ok(ExperimentCreated(old(repo.nextId), req.title, req.status))
  {
    if projectLookup.Err? {
      return Err(projectLookup.error);
    }
    var newExp := NewExperiment(req);
    var savedExp := repo.Add(newExp);
    r := Ok(ExperimentCreated(savedExp.id, savedExp.title, savedExp.status));
  }

  /** `getExperiments`: one page of the experiments whose project is
      `req.orgId`, with the reported total. */
  function GetExperiments(repo: ExperimentRepository, req: PaginationRequest): (r: Paged<Experiment>)
    reads repo
    requires req.page >= 1
    ensures |r.items| <= req.rows
    ensures forall e :: e in r.items ==> e in repo.experiments && e.projectId == req.orgId
    ensures r.total == ReportedTotal(req.total, repo.CountAll(req.orgId))
    ensures r.items == Page(OfProject(repo.experiments, req.orgId), req.rows, req.page)
    ensures req.page == 1 && repo.CountAll(req.orgId) <= req.rows ==>
      r.items == OfProject(repo.experiments, req.orgId)
  {
    var total := ReportedTotal(req.total, repo.CountAll(req.orgId));
    var items := repo.GetAll(req.rows, req.page, req.orgId);
    if req.page == 1 && repo.CountAll(req.orgId) <= req.rows then
      FirstPageHoldsAll(OfProject(repo.experiments, req.orgId), req.rows);
      Paged(items, total)
    else
      Paged(items, total)
  }

  /** The experiment after the present fields of `req` are written over it. */
  function Patch(e: Experiment, req: ExperimentUpdate): Experiment
  {
    e.(title := req.title.GetOr(e.title),
       js := if req.js.Some? then req.js else e.js,
       css := if req.css.Some? then req.css else e.css,
       experimentType := req.experimentType.GetOr(e.experimentType),
       status := req.status.GetOr(e.status),
       url := if req.url.Some? then req.url else e.url,
       description := if req.description.Some? then req.description else e.description,
       triggerType := req.triggerType.GetOr(e.triggerType),
       conditionType := req.conditionType.GetOr(e.conditionType))
  }

  /** Each of the nine fields is overwritten exactly when the request
      carries it; the id, project and child lists never change. */
  lemma PatchSemantics(e: Experiment, req: ExperimentUpdate)
    ensures var p := Patch(e, req);
      && p.id == e.id && p.projectId == e.projectId
      && p.conditions == e.conditions && p.variations == e.variations && p.metrics == e.metrics
      && (p.title != e.title ==> req.title == Some(p.title))
      && (req.title.Some? ==> p.title == req.title.value)
      && (p.js != e.js ==> req.js.Some? && p.js == req.js)
      && (req.js.Some? ==> p.js == req.js)
      && (p.css != e.css ==> req.css.Some? && p.css == req.css)
      && (req.css.Some? ==> p.css == req.css)
      && (p.experimentType != e.experimentType ==> req.experimentType == Some(p.experimentType))
      && (req.experimentType.Some? ==> p.experimentType == req.experimentType.value)
      && (p.status != e.status ==> req.status == Some(p.status))
      && (req.status.Some? ==> p.status == req.status.value)
      && (p.url != e.url ==> req.url.Some? && p.url == req.url)
      && (req.url.Some? ==> p.url == req.url)
      && (p.description != e.description ==> req.description.Some? && p.description == req.description)
      && (req.description.Some? ==> p.description == req.description)
      && (p.triggerType != e.triggerType ==> req.triggerType == Some(p.triggerType))
      && (req.triggerType.Some? ==> p.triggerType == req.triggerType.value)
      && (p.conditionType != e.conditionType ==> req.conditionType == Some(p.conditionType))
      && (req.conditionType.Some? ==> p.conditionType == req.conditionType.value)
  {
  }

  /** Applying the same update twice is the same as applying it once. */
  lemma PatchIdempotent(e: Experiment, req: ExperimentUpdate)
    ensures Patch(Patch(e, req), req) == Patch(e, req)
  {
  }

  /** A request the model validator would reject (no field present)
      would leave the experiment as it is. */
  lemma EmptyPatchIsIdentity(e: Experiment, req: ExperimentUpdate)
    requires CheckAtLeastOneField(req).Err?
    ensures Patch(e, req) == e
  {
  }

  /** `updateExperiment`: 404 when no experiment has the id (nothing
      changes); otherwise the patched experiment is written over the
      stored row and returned. */
  method UpdateExperiment(repo: ExperimentRepository, id: int, req: ExperimentUpdate)
    returns (r: Result<Experiment>)
    requires repo.Valid()
    modifies repo
    ensures repo.Valid()
    ensures old(repo.GetById(id)).Err? ==> r == old(repo.GetById(id)) && unchanged(repo)
    ensures old(repo.GetById(id)).Ok? ==>
      && r == Ok(Patch(old(repo.GetById(id)).value, req))
      && FindById(old(repo.experiments), id).Some?
      && repo.experiments == old(repo.experiments)[FindById(old(repo.experiments), id).value := r.value]
  {
    var found := repo.GetById(id);
    if found.Err? {
      return found;
    }
    var experiment := Patch(found.value, req);
    var updatedExp := repo.Edit(experiment);
    r := Ok(updatedExp);
  }
}
