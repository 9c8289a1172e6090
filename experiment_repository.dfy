/** The experiment table (src/experiment/repository/ExperimentRepositoryImp.py).
    Rows are kept in store order, the order an unordered SQL query returns
    them in; pagination is OFFSET (page - 1) * rows LIMIT rows. */
module ExperimentStore {
  import opened Common
  import opened Entities

  /** The experiments of project `pid`, in store order. */
  function OfProject(s: seq<Experiment>, pid: int): (r: seq<Experiment>)
    ensures |r| <= |s|
    ensures forall e :: e in r <==> e in s && e.projectId == pid
  {
    if s == [] then []
    else (if s[0].projectId == pid then [s[0]] else []) + OfProject(s[1..], pid)
  }

  /** The ACTIVE experiments of project `pid`, in store order. */
  function ActiveOfProject(s: seq<Experiment>, pid: int): (r: seq<Experiment>)
    ensures |r| <= |s|
    ensures forall e :: e in r <==> e in s && e.projectId == pid && e.status == ACTIVE
  {
    if s == [] then []
    else (if s[0].projectId == pid && s[0].status == ACTIVE then [s[0]] else [])
         + ActiveOfProject(s[1..], pid)
  }

  /** How many matching items page `page` skips. */
  function Offset(rows: nat, page: nat): nat
    requires page >= 1
  {
    (page - 1) * rows
  }

  /** One page: skip `(page - 1) * rows` items, keep at most `rows`. */
  function Page(s: seq<Experiment>, rows: nat, page: nat): (r: seq<Experiment>)
    requires page >= 1
    ensures |r| <= rows
    ensures forall k :: 0 <= k < |r| ==> Offset(rows, page) + k < |s| && r[k] == s[Offset(rows, page) + k]
    ensures Offset(rows, page) + rows <= |s| ==> |r| == rows
    ensures Offset(rows, page) + rows > |s| ==> Offset(rows, page) + |r| >= |s|
  {
    var offset := Offset(rows, page);
    if offset >= |s| then []
    else if offset + rows <= |s| then s[offset..offset + rows]
    else s[offset..]
  }

  /** A first page at least as large as the list is the whole list. */
  lemma FirstPageHoldsAll(s: seq<Experiment>, rows: nat)
    requires |s| <= rows
    ensures Page(s, rows, 1) == s
  {
  }

  /** The first experiment with id `id`. */
  function FindById(s: seq<Experiment>, id: int): (r: Option<nat>)
    ensures r.Some? ==> r.value < |s| && s[r.value].id == id
    ensures r.Some? ==> forall i :: 0 <= i < r.value ==> s[i].id != id
    ensures r.None? ==> forall i :: 0 <= i < |s| ==> s[i].id != id
  {
    if s == [] then None
    else if s[|s| - 1].id == id then
      match FindById(s[..|s| - 1], id)
      case Some(i) => Some(i)
      case None => Some(|s| - 1)
    else FindById(s[..|s| - 1], id)
  }

  predicate DistinctExperimentIds(s: seq<Experiment>)
  {
    forall i, j :: 0 <= i < j < |s| ==> s[i].id != s[j].id
  }

  class ExperimentRepository {
    var experiments: seq<Experiment>
    var nextId: int

    ghost predicate Valid()
      reads this
    {
      && DistinctExperimentIds(experiments)
      && forall i :: 0 <= i < |experiments| ==> experiments[i].id < nextId
    }

    constructor ()
      ensures Valid() && experiments == []
    {
      experiments := [];
      nextId := 1;
    }

    /** `add`: persist a new experiment; the store assigns its id. */
    method Add(e: Experiment) returns (saved: Experiment)
      requires Valid()
      modifies this
      ensures Valid()
      ensures saved == e.(id := old(nextId))
      ensures experiments == old(experiments) + [saved]
    {
      saved := e.(id := nextId);
      experiments := experiments + [saved];
      nextId := nextId + 1;
    }

    /** `edit`: persist an experiment over the row with its id (a row
        with an unknown id is inserted). */
    method Edit(e: Experiment) returns (saved: Experiment)
      requires Valid()
      modifies this
      ensures Valid()
      ensures saved == e
      ensures FindById(old(experiments), e.id).Some? ==>
        experiments == old(experiments)[FindById(old(experiments), e.id).value := e]
      ensures FindById(old(experiments), e.id).None? ==> experiments == old(experiments) + [e]
    {
      var found := FindById(experiments, e.id);
      if found.Some? {
        experiments := experiments[found.value := e];
      } else {
        experiments := experiments + [e];
        if nextId <= e.id {
          nextId := e.id + 1;
        }
      }
      saved := e;
    }

    /** `getById`: the experiment with that id, or 404. */
    function GetById(id: int): (r: Result<Experiment>)
      reads this
      ensures r.Ok? <==> exists i :: 0 <= i < |experiments| && experiments[i].id == id
      ensures r.Ok? ==> r.value in experiments && r.value.id == id
      ensures r.Err? ==> r.error == Http(NotFound, "Experiment not found")
    {
      match FindById(experiments, id)
      case Some(i) => Ok(experiments[i])
      case None => Err(Http(NotFound, "Experiment not found"))
    }

    /** `getAll`: one page of the project's experiments, any status. */
    function GetAll(rows: nat, page: nat, projectId: int): (r: seq<Experiment>)
      reads this
      requires page >= 1
      ensures |r| <= rows
      ensures forall e :: e in r ==> e in experiments && e.projectId == projectId
      ensures var of := OfProject(experiments, projectId);
        forall k :: 0 <= k < |r| ==> Offset(rows, page) + k < |of| && r[k] == of[Offset(rows, page) + k]
      ensures var of := OfProject(experiments, projectId);
        Offset(rows, page) + rows <= |of| ==> |r| == rows
      ensures var of := OfProject(experiments, projectId);
        Offset(rows, page) + rows > |of| ==> Offset(rows, page) + |r| >= |of|
    {
      Page(OfProject(experiments, projectId), rows, page)
    }

    /** `getAllActive`: one page of the project's ACTIVE experiments. */
    function GetAllActive(rows: nat, page: nat, projectId: int): (r: seq<Experiment>)
      reads this
      requires page >= 1
      ensures |r| <= rows
      ensures forall e :: e in r ==> e in experiments && e.projectId == projectId && e.status == ACTIVE
      ensures var act := ActiveOfProject(experiments, projectId);
        forall k :: 0 <= k < |r| ==> Offset(rows, page) + k < |act| && r[k] == act[Offset(rows, page) + k]
      ensures var act := ActiveOfProject(experiments, projectId);
        Offset(rows, page) + rows <= |act| ==> |r| == rows
      ensures var act := ActiveOfProject(experiments, projectId);
        Offset(rows, page) + rows > |act| ==> Offset(rows, page) + |r| >= |act|
    {
      Page(ActiveOfProject(experiments, projectId), rows, page)
    }

    /** `countAll`: how many experiments the project has. */
    function CountAll(projectId: int): (n: nat)
      reads this
      ensures n <= |experiments|
      ensures n == |OfProject(experiments, projectId)|
    {
      |OfProject(experiments, projectId)|
    }
  }
}
