/** Projects of an organisation and the user-project link table that
    says who may work on which project. */
module ProjectService {
  import opened Common
  import opened Pagination

  datatype Permission = OWNER | EDITOR

  /** A row of the user-project link table, keyed by (userId, projectId). */
  datatype ProjectLink = ProjectLink(userId: int, projectId: int, permission: Permission, isSuper: bool, disabled: bool)

  type LinkKey = (int, int)

  /** A super-admin row of the user-org link table; the user id is
      nullable. */
  datatype SuperAdminLink = SuperAdminLink(userId: Option<int>, orgId: int)

  datatype Org = Org(id: int, name: string)

  datatype Project = Project(id: int, name: string, description: Option<string>, orgId: int, org: Option<Org>)

  datatype ProjectCreate = ProjectCreate(name: string, description: Option<string>, orgId: int)
  datatype ProjectCreated = ProjectCreated(id: int, name: string, orgId: int)
  datatype ProjectResponse = ProjectResponse(id: int, name: string, description: Option<string>, orgId: int, orgName: string)
  datatype AssignResponse = AssignResponse(projectId: int, userId: int, message: string)

  const AlreadyAssigned := "User is already assigned to this project!"
  const AssignedMessage := "User assigned to project successfully"
  const NotAssigned := "User is not assigned to this project!"
  const RemovedMessage := "User removed from project successfully"

  /** Python truthiness of a nullable id: present and non-zero. */
  predicate Truthy(id: Option<int>)
  {
    id.Some? && id.value != 0
  }

  function OwnerLink(userId: int, projectId: int): ProjectLink
  {
    ProjectLink(userId, projectId, OWNER, true, false)
  }

  function EditorLink(userId: int, projectId: int): ProjectLink
  {
    ProjectLink(userId, projectId, EDITOR, false, false)
  }

  /** Every row sits under its own (userId, projectId). */
  ghost predicate WellKeyed(links: map<LinkKey, ProjectLink>)
  {
    forall k :: k in links ==> links[k].userId == k.0 && links[k].projectId == k.1
  }

  /** The link table after an OWNER link on `projectId` is added for each
      super-admin with a truthy user id, in list order. */
  function OwnerLinksAdded(links: map<LinkKey, ProjectLink>, admins: seq<SuperAdminLink>, projectId: int): map<LinkKey, ProjectLink>
  {
    if admins == [] then links
    else
      var front := OwnerLinksAdded(links, admins[..|admins| - 1], projectId);
      var a := admins[|admins| - 1];
      if Truthy(a.userId) then front[(a.userId.value, projectId) := OwnerLink(a.userId.value, projectId)]
      else front
  }

  /** What `createProject` does to the link table: links on other
      projects are untouched, and the new project's links are exactly one
      OWNER, super, enabled link per super-admin with a truthy user id. */
  lemma {:induction false} OwnerLinksAddedSpec(links: map<LinkKey, ProjectLink>, admins: seq<SuperAdminLink>, projectId: int)
    requires forall k :: k in links ==> k.1 != projectId
    ensures var r := OwnerLinksAdded(links, admins, projectId);
      && (forall k :: k in links ==> k in r && r[k] == links[k])
      && (forall k :: k in r && k !in links ==> k.1 == projectId && r[k] == OwnerLink(k.0, projectId))
      && (forall u :: (u, projectId) in r <==> exists i :: 0 <= i < |admins| && admins[i].userId == Some(u) && u != 0)
    decreases |admins|
  {
    if admins != [] {
      var front := admins[..|admins| - 1];
      OwnerLinksAddedSpec(links, front, projectId);
      forall u | (exists i :: 0 <= i < |admins| && admins[i].userId == Some(u) && u != 0)
        ensures (u, projectId) in OwnerLinksAdded(links, admins, projectId)
      {
        var i :| 0 <= i < |admins| && admins[i].userId == Some(u) && u != 0;
        if i < |admins| - 1 {
          assert front[i] == admins[i];
        }
      }
      forall u | (u, projectId) in OwnerLinksAdded(links, admins, projectId)
        ensures exists i :: 0 <= i < |admins| && admins[i].userId == Some(u) && u != 0
      {
        if (u, projectId) in OwnerLinksAdded(links, front, projectId) {
          var i :| 0 <= i < |front| && front[i].userId == Some(u) && u != 0;
          assert admins[i] == front[i];
        } else {
          assert admins[|admins| - 1].userId == Some(u) && u != 0;
        }
      }
    }
  }

  function Assigned(links: map<LinkKey, ProjectLink>, userId: int, projectId: int): map<LinkKey, ProjectLink>
  {
    links[(userId, projectId) := EditorLink(userId, projectId)]
  }

  function Removed(links: map<LinkKey, ProjectLink>, userId: int, projectId: int): map<LinkKey, ProjectLink>
  {
    links - {(userId, projectId)}
  }

  /** Assigning a user who was not on the project and then removing them
      gives back the link table as it was. */
  lemma AssignThenRemoveRestores(links: map<LinkKey, ProjectLink>, userId: int, projectId: int)
    requires (userId, projectId) !in links
    ensures Removed(Assigned(links, userId, projectId), userId, projectId) == links
  {
    assert Removed(Assigned(links, userId, projectId), userId, projectId).Keys == links.Keys;
  }

  /** The response mapping shared by both listings: a project without an org
      reports an empty org name. */
  function ToResponse(p: Project): (r: ProjectResponse)
    ensures p.org.None? ==> r.orgName == ""
    ensures p.org.Some? ==> r.orgName == p.org.value.name
    ensures r.id == p.id && r.orgId == p.orgId
  {
    ProjectResponse(p.id, p.name, p.description, p.orgId, if p.org.Some? then p.org.value.name else "")
  }

  /** `getProjects`: `page` and `count` are the project store's page of
      the org's projects and its count for the org. */
  function GetProjects(req: PaginationRequest, count: nat, page: seq<Project>): (r: Paged<ProjectResponse>)
    ensures r.total == ReportedTotal(req.total, count)
    ensures |r.items| == |page|
    ensures forall i :: 0 <= i < |page| ==> r.items[i].id == page[i].id && r.items[i].orgId == page[i].orgId
    ensures forall i :: 0 <= i < |page| && page[i].org.None? ==> r.items[i].orgName == ""
  {
    Paged(seq(|page|, i requires 0 <= i < |page| => ToResponse(page[i])), ReportedTotal(req.total, count))
  }

  /** `getProjectsByUserId`: `results` are the (project, link) pairs the
      project store joins for the user; only the project is reported. */
  function GetProjectsByUserId(results: seq<(Project, ProjectLink)>): (r: seq<ProjectResponse>)
    ensures |r| == |results|
    ensures forall i :: 0 <= i < |results| ==> r[i].id == results[i].0.id
    ensures forall i :: 0 <= i < |results| && results[i].0.org.None? ==> r[i].orgName == ""
  {
    seq(|results|, i requires 0 <= i < |results| => ToResponse(results[i].0))
  }

  class ProjectService {
    var links: map<LinkKey, ProjectLink>

    ghost predicate Valid()
      reads this
    {
      WellKeyed(links)
    }

    constructor ()
      ensures Valid() && links == map[]
    {
      links := map[];
    }

    /** `createProject`: the project store saves the project under
        `newProjectId` (a fresh id, so no link names it yet); then an
        OWNER link is added for every super-admin of the org whose user
        id is truthy. */
    method CreateProject(req: ProjectCreate, newProjectId: int, superAdminLinks: seq<SuperAdminLink>)
      returns (r: ProjectCreated)
      requires Valid()
      requires forall k :: k in links ==> k.1 != newProjectId
      modifies this
      ensures Valid()
      ensures r == ProjectCreated(newProjectId, req.name, req.orgId)
      ensures links == OwnerLinksAdded(old(links), superAdminLinks, newProjectId)
    {
      var i := 0;
      while i < |superAdminLinks|
        invariant 0 <= i <= |superAdminLinks|
        invariant links == OwnerLinksAdded(old(links), superAdminLinks[..i], newProjectId)
        invariant WellKeyed(links)
      {
        var adminLink := superAdminLinks[i];
        if adminLink.userId.Some? && adminLink.userId.value != 0 {
          links := links[(adminLink.userId.value, newProjectId) := OwnerLink(adminLink.userId.value, newProjectId)];
        }
        assert superAdminLinks[..i + 1][..i] == superAdminLinks[..i];
        i := i + 1;
      }
      assert superAdminLinks[..i] == superAdminLinks;
      r := ProjectCreated(newProjectId, req.name, req.orgId);
    }

    /** `assignUser`: `projectLookup` is the outcome of looking the
        project up, whose error is passed on; 409 when the user already
        has a link to the project; otherwise an EDITOR link (not super,
        enabled) is added. */
    method AssignUser(projectLookup: Result<Project>, projectId: int, userId: int)
      returns (r: Result<AssignResponse>)
      requires Valid()
      modifies this
      ensures Valid()
      ensures projectLookup.Err? ==> r == Err(projectLookup.error) && links == old(links)
      ensures projectLookup.Ok? && (userId, projectId) in old(links) ==>
        r == Err(Http(Conflict, AlreadyAssigned)) && links == old(links)
      ensures projectLookup.Ok? && (userId, projectId) !in old(links) ==>
        r == Ok(AssignResponse(projectId, userId, AssignedMessage)) && links == Assigned(old(links), userId, projectId)
    {
      if projectLookup.Err? {
        return Err(projectLookup.error);
      }
      if (userId, projectId) in links {
        return Err(Http(Conflict, AlreadyAssigned));
      }
      links := links[(userId, projectId) := EditorLink(userId, projectId)];
      r := Ok(AssignResponse(projectId, userId, AssignedMessage));
    }

    /** `removeUserFromProject`: 404 when there is no link; otherwise
        that one link is deleted. */
    method RemoveUserFromProject(projectId: int, userId: int) returns (r: Result<string>)
      requires Valid()
      modifies this
      ensures Valid()
      ensures (userId, projectId) !in old(links) ==> r == Err(Http(NotFound, NotAssigned)) && links == old(links)
      ensures (userId, projectId) in old(links) ==>
        r == Ok(RemovedMessage) && links == Removed(old(links), userId, projectId)
    {
      if (userId, projectId) !in links {
        return Err(Http(NotFound, NotAssigned));
      }
      links := links - {(userId, projectId)};
      r := Ok(RemovedMessage);
    }
  }
}
