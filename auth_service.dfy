/** Login: the checks in their order, the filtering of the user's orgs
    and projects down to the enabled ones, and the token payloads. */
module AuthService {
  import opened Common

  /** An org or a project as it appears in a token: id and name. */
  datatype Named = Named(id: int, name: string)

  datatype User = User(
    id: int,
    email: string,
    passwordHash: string,
    verified: bool,
    orgs: seq<Named>,
    projects: seq<Named>)

  /** A user-org or user-project link row, keyed by (userId, id). */
  datatype Link = Link(disabled: bool)

  type LinkTable = map<(int, int), Link>

  /** The claims of one JWT; `exp` is in seconds. */
  datatype Payload = Payload(sub: string, userId: int, orgs: seq<Named>, projects: seq<Named>, exp: int)

  datatype TokenPair = TokenPair(access: Payload, refresh: Payload)

  const NoUser := "No user found by this email!"
  const NotVerified := "User not verified yet!"
  const WrongPassword := "Incorrect password!"
  const AllOrgsDisabled := "Your account is disabled in all organizations!"
  const NoProjects := "You do not have any project assigned!"

  /** The user has a link to `item` and it is not disabled. */
  predicate Enabled(links: LinkTable, userId: int, item: Named)
  {
    (userId, item.id) in links && !links[(userId, item.id)].disabled
  }

  /** The items the user has an enabled link to, in the user's order. */
  function ActiveOf(items: seq<Named>, userId: int, links: LinkTable): (r: seq<Named>)
    ensures forall x :: x in r <==> x in items && Enabled(links, userId, x)
    ensures |r| <= |items|
  {
    if items == [] then []
    else
      var front := ActiveOf(items[..|items| - 1], userId, links);
      var last := items[|items| - 1];
      assert items == items[..|items| - 1] + [last];
      if Enabled(links, userId, last) then front + [last] else front
  }

  /** Filtering keeps the order: the active part of a concatenation is
      the concatenation of the active parts. */
  lemma {:induction false} ActiveOfAppend(a: seq<Named>, b: seq<Named>, userId: int, links: LinkTable)
    ensures ActiveOf(a + b, userId, links) == ActiveOf(a, userId, links) + ActiveOf(b, userId, links)
    decreases |b|
  {
    if b == [] {
      assert a + b == a;
    } else {
      assert (a + b)[..|a + b| - 1] == a + b[..|b| - 1];
      ActiveOfAppend(a, b[..|b| - 1], userId, links);
    }
  }

  /** When every link is enabled nothing is filtered out. */
  lemma {:induction false} ActiveOfAllEnabled(items: seq<Named>, userId: int, links: LinkTable)
    requires forall i :: 0 <= i < |items| ==> Enabled(links, userId, items[i])
    ensures ActiveOf(items, userId, links) == items
    decreases |items|
  {
    if items != [] {
      ActiveOfAllEnabled(items[..|items| - 1], userId, links);
    }
  }

  /** `generateToken`: access and refresh payloads carry the same
      subject, user id, orgs and projects. The source reads the clock once
      per token: the access token expires `accessMinutes` after
      `accessNow`, the refresh token `refreshMinutes` after `refreshNow`
      (times in seconds). */
  function GenerateToken(
    user: User, orgs: seq<Named>, projects: seq<Named>,
    accessNow: int, refreshNow: int, accessMinutes: int, refreshMinutes: int): (t: TokenPair)
    ensures t.access.sub == user.email && t.access.userId == user.id
    ensures t.access.orgs == orgs && t.access.projects == projects
    ensures t.access.exp == accessNow + accessMinutes * 60 && t.refresh.exp == refreshNow + refreshMinutes * 60
  {
    var claims := Payload(user.email, user.id, orgs, projects, 0);
    TokenPair(claims.(exp := accessNow + accessMinutes * 60), claims.(exp := refreshNow + refreshMinutes * 60))
  }

  /** The two payloads differ in `exp` and nowhere else; since the second
      clock read is never earlier than the first, a longer refresh
      lifetime makes the refresh token outlive the access token. */
  lemma TokensDifferOnlyInExpiry(
    user: User, orgs: seq<Named>, projects: seq<Named>,
    accessNow: int, refreshNow: int, accessMinutes: int, refreshMinutes: int)
    ensures var t := GenerateToken(user, orgs, projects, accessNow, refreshNow, accessMinutes, refreshMinutes);
      && t.access.(exp := t.refresh.exp) == t.refresh
      && (t.access == t.refresh <==> accessNow + accessMinutes * 60 == refreshNow + refreshMinutes * 60)
      && (accessNow <= refreshNow && accessMinutes < refreshMinutes ==> t.access.exp < t.refresh.exp)
  {
  }

  /** The loop `login` runs over the user's orgs and again over the
      user's projects: keep those whose link exists and is enabled. */
  method FilterActive(items: seq<Named>, userId: int, links: LinkTable) returns (active: seq<Named>)
    ensures active == ActiveOf(items, userId, links)
  {
    active := [];
    var i := 0;
    while i < |items|
      invariant 0 <= i <= |items|
      invariant active == ActiveOf(items[..i], userId, links)
    {
      var item := items[i];
      if (userId, item.id) in links && !links[(userId, item.id)].disabled {
        active := active + [item];
      }
      assert items[..i + 1][..i] == items[..i];
      i := i + 1;
    }
    assert items[..i] == items;
  }

  /** `login`. `users` maps e-mails to stored users; `verify` is the
      password checker; `orgLinks` and `projectLinks` are the two link
      tables; `accessNow` and `refreshNow` are the two clock reads and the
      two lifetimes stand for the configuration. The checks run in this order: unknown e-mail (404),
      unverified (401), wrong password (401), no enabled org (403), no
      enabled project (403). */
  method Login(
    users: map<string, User>, email: string, password: string,
    verify: (string, string) -> bool, orgLinks: LinkTable, projectLinks: LinkTable,
    accessNow: int, refreshNow: int, accessMinutes: int, refreshMinutes: int)
    returns (r: Result<TokenPair>)
    ensures email !in users ==> r == Err(Http(NotFound, NoUser))
    ensures email in users && !users[email].verified ==> r == Err(Http(Unauthorized, NotVerified))
    ensures email in users && users[email].verified && !verify(password, users[email].passwordHash) ==>
      r == Err(Http(Unauthorized, WrongPassword))
    ensures r.Ok? || r.error.Http?
    ensures email in users && users[email].verified && verify(password, users[email].passwordHash) ==>
      var u := users[email];
      var activeOrgs := ActiveOf(u.orgs, u.id, orgLinks);
      var activeProjects := ActiveOf(u.projects, u.id, projectLinks);
      && (activeOrgs == [] ==> r == Err(Http(Forbidden, AllOrgsDisabled)))
      && (activeOrgs != [] && activeProjects == [] ==> r == Err(Http(Forbidden, NoProjects)))
      && (activeOrgs != [] && activeProjects != [] ==>
            r == Ok(GenerateToken(u, activeOrgs, activeProjects, accessNow, refreshNow, accessMinutes, refreshMinutes)))
  {
    if email !in users {
      return Err(Http(NotFound, NoUser));
    }
    var dbUser := users[email];
    if !dbUser.verified {
      return Err(Http(Unauthorized, NotVerified));
    }
    if !verify(password, dbUser.passwordHash) {
      return Err(Http(Unauthorized, WrongPassword));
    }
    var activeOrgs := FilterActive(dbUser.orgs, dbUser.id, orgLinks);
    if activeOrgs == [] {
      return Err(Http(Forbidden, AllOrgsDisabled));
    }
    var activeProjects := FilterActive(dbUser.projects, dbUser.id, projectLinks);
    if activeProjects == [] {
      return Err(Http(Forbidden, NoProjects));
    }
    r := Ok(GenerateToken(dbUser, activeOrgs, activeProjects, accessNow, refreshNow, accessMinutes, refreshMinutes));
  }
}
