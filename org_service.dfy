/** Organisation signup: e-mail domain parsing, the duplicate checks in
    their order, and the records a successful signup writes. */
module OrgService {
  import opened Common
  import ProjectService

  // ---------------------------------------------------------------------
  // Python's `str.split` with a one-character separator

  /** The pieces of `s` between occurrences of `sep`; always at least one. */
  function Split(s: string, sep: char): (r: seq<string>)
    ensures |r| >= 1
    decreases |s|
  {
    if s == [] then [[]]
    else
      var rest := Split(s[1..], sep);
      if s[0] == sep then [[]] + rest
      else [[s[0]] + rest[0]] + rest[1..]
  }

  /** `sep.join(parts)` */
  function Join(parts: seq<string>, sep: char): string
    requires |parts| >= 1
  {
    if |parts| == 1 then parts[0] else parts[0] + [sep] + Join(parts[1..], sep)
  }

  /** `h` is the text of `s` up to its first `sep` (all of `s` when it
      has none). */
  predicate LeadingField(s: string, h: string, sep: char)
  {
    && h <= s
    && sep !in h
    && (|h| == |s| || s[|h|] == sep)
  }

  /** Joining the pieces with the separator gives back the string. */
  lemma {:induction false} SplitJoinRoundTrip(s: string, sep: char)
    ensures Join(Split(s, sep), sep) == s
    decreases |s|
  {
    if s != [] {
      var rest := Split(s[1..], sep);
      SplitJoinRoundTrip(s[1..], sep);
      if s[0] == sep {
        assert Split(s, sep)[1..] == rest;
      } else {
        var r := Split(s, sep);
        if |rest| == 1 {
          assert r == [[s[0]] + rest[0]];
        } else {
          assert r[1..] == rest[1..];
        }
      }
    }
  }

  /** No piece contains the separator, and there are two pieces or
      more exactly when the separator occurs. */
  lemma {:induction false} SplitPieces(s: string, sep: char)
    ensures forall i :: 0 <= i < |Split(s, sep)| ==> sep !in Split(s, sep)[i]
    ensures |Split(s, sep)| >= 2 <==> sep in s
    ensures LeadingField(s, Split(s, sep)[0], sep)
    decreases |s|
  {
    if s != [] {
      SplitPieces(s[1..], sep);
      var rest := Split(s[1..], sep);
      var r := Split(s, sep);
      if s[0] == sep {
        assert r == [[]] + rest;
        assert forall i :: 1 <= i < |r| ==> r[i] == rest[i - 1];
      } else {
        assert r[0] == [s[0]] + rest[0];
        assert forall i :: 1 <= i < |r| ==> r[i] == rest[i];
        assert sep in s <==> sep in s[1..] by {
          assert s == [s[0]] + s[1..];
        }
        assert r[0] <= s by {
          assert s == [s[0]] + s[1..];
        }
      }
    }
  }

  /** The piece after the first separator is the leading field of the
      text after it. */
  lemma {:induction false} SplitSecond(s: string, sep: char, k: nat)
    requires k < |s| && s[k] == sep && sep !in s[..k]
    ensures |Split(s, sep)| >= 2 && Split(s, sep)[1] == Split(s[k + 1..], sep)[0]
    decreases k
  {
    if k == 0 {
    } else {
      assert s[1..][..k - 1] == s[1..k];
      assert sep !in s[1..k] by {
        assert forall c :: c in s[1..k] ==> c in s[..k];
      }
      SplitSecond(s[1..], sep, k - 1);
      assert s[1..][k..] == s[k + 1..];
      assert s[0] != sep by {
        assert s[0] == s[..k][0];
      }
    }
  }

  // ---------------------------------------------------------------------
  // E-mail domain

  const InvalidEmail := "Invalid email format"
  const OrgExists := "Organization already exists with this domain!"
  const UserExists := "User already exists with this email!"

  /** `domain = email.split("@")[1]` and `domainName = domain.split(".")[0]`;
      a missing '@' turns the IndexError into a 400. */
  function ParseEmail(email: string): (r: Result<(string, string)>)
    ensures r.Err? <==> '@' !in email
    ensures r.Err? ==> r.error == Http(BadRequest, InvalidEmail)
    ensures r.Ok? ==>
      && (exists k :: 0 <= k < |email| && email[k] == '@' && '@' !in email[..k] && LeadingField(email[k + 1..], r.value.0, '@'))
      && LeadingField(r.value.0, r.value.1, '.')
  {
    SplitPieces(email, '@');
    var parts := Split(email, '@');
    if |parts| < 2 then Err(Http(BadRequest, InvalidEmail))
    else
      var k := FirstIndex(email, '@');
      SplitSecond(email, '@', k);
      SplitPieces(email[k + 1..], '@');
      var domain := parts[1];
      SplitPieces(domain, '.');
      Ok((domain, Split(domain, '.')[0]))
  }

  /** Where `c` first occurs in `s`. */
  function FirstIndex(s: string, c: char): (k: nat)
    requires c in s
    ensures k < |s| && s[k] == c && c !in s[..k]
  {
    if s[0] == c then 0
    else
      assert c in s[1..] by {
        assert s == [s[0]] + s[1..];
      }
      var k := FirstIndex(s[1..], c);
      assert s[..k + 1] == [s[0]] + s[1..][..k];
      k + 1
  }

  /** A string has one leading field per separator. */
  lemma LeadingFieldUnique(s: string, h1: string, h2: string, sep: char)
    requires LeadingField(s, h1, sep) && LeadingField(s, h2, sep)
    ensures h1 == h2
  {
  }

  /** What `ParseEmail` returns is pinned down by its contract: the
      domain of an e-mail whose first '@' is at `k` and the part of it
      before its first '.'. */
  lemma ParseEmailDetermined(email: string, k: nat, domain: string, domainName: string)
    requires k < |email| && email[k] == '@' && '@' !in email[..k]
    requires LeadingField(email[k + 1..], domain, '@') && LeadingField(domain, domainName, '.')
    ensures ParseEmail(email) == Ok((domain, domainName))
  {
    var r := ParseEmail(email);
    var j :| 0 <= j < |email| && email[j] == '@' && '@' !in email[..j] && LeadingField(email[j + 1..], r.value.0, '@');
    assert j == k;
    LeadingFieldUnique(email[k + 1..], domain, r.value.0, '@');
    LeadingFieldUnique(domain, domainName, r.value.1, '.');
  }

  /** The domain is what follows the '@'; its name is the part before its first '.'. */
  lemma PlainEmailExample()
    ensures ParseEmail("ann@acme.io") == Ok(("acme.io", "acme"))
  {
    var e := "ann@acme.io";
    assert e[..3] == "ann" && e[4..] == "acme.io" && "acme.io"[..4] == "acme";
    ParseEmailDetermined(e, 3, "acme.io", "acme");
  }

  /** An e-mail ending in '@' is not rejected: its domain is empty. */
  lemma TrailingAtExample()
    ensures ParseEmail("x@") == Ok(("", ""))
  {
    var e := "x@";
    assert e[..1] == "x" && e[2..] == "";
    ParseEmailDetermined(e, 1, "", "");
  }

  /** Only the text between the first and the second '@' is the domain. */
  lemma DoubleAtExample()
    ensures ParseEmail("a@b@c.d") == Ok(("b", "b"))
  {
    var e := "a@b@c.d";
    assert e[..1] == "a" && e[2..] == "b@c.d" && "b@c.d"[..1] == "b";
    ParseEmailDetermined(e, 1, "b", "b");
  }

  // ---------------------------------------------------------------------
  // Naming, password and OTP

  function AsciiUpper(c: char): char
  {
    if 'a' <= c <= 'z' then (c as int - 32) as char else c
  }

  function AsciiLower(c: char): char
  {
    if 'A' <= c <= 'Z' then (c as int + 32) as char else c
  }

  /** `str.capitalize` over ASCII: first letter upper case, the rest lower. */
  function Capitalize(s: string): (r: string)
    ensures |r| == |s|
    ensures |s| > 0 ==> r[0] == AsciiUpper(s[0])
    ensures forall i :: 0 < i < |s| ==> r[i] == AsciiLower(s[i])
  {
    if s == [] then [] else [AsciiUpper(s[0])] + seq(|s| - 1, i requires 0 <= i < |s| - 1 => AsciiLower(s[i + 1]))
  }

  lemma CapitalizeIdempotent(s: string)
    ensures Capitalize(Capitalize(s)) == Capitalize(s)
  {
  }

  function DefaultProjectName(domainName: string): string
  {
    Capitalize(domainName) + " Project"
  }

  function DefaultProjectDescription(domainName: string): string
  {
    "Automatically created " + domainName + " project, during organization registration."
  }

  const PasswordLimit := 72

  /** `password[:72]` */
  function TruncatedPassword(password: string): (r: string)
    ensures |r| == if |password| <= PasswordLimit then |password| else PasswordLimit
    ensures r <= password
  {
    if |password| <= PasswordLimit then password else password[..PasswordLimit]
  }

  /** Two passwords that agree on their first 72 characters hand the
      hasher the same input, whatever follows. */
  lemma LongPasswordsShareHasherInput(p: string, q: string)
    requires |p| >= PasswordLimit && |q| >= PasswordLimit && p[..PasswordLimit] == q[..PasswordLimit]
    ensures TruncatedPassword(p) == TruncatedPassword(q)
  {
    assert |p| == PasswordLimit ==> p == p[..PasswordLimit];
    assert |q| == PasswordLimit ==> q == q[..PasswordLimit];
  }

  const OtpLength := 6

  /** `generateOtp`: six characters drawn from `population`; `picks` are
      the positions the random source chose. */
  function GenerateOtp(population: string, picks: seq<nat>): (otp: string)
    requires |picks| == OtpLength
    requires forall i :: 0 <= i < |picks| ==> picks[i] < |population|
    ensures |otp| == OtpLength
    ensures forall c :: c in otp ==> c in population
  {
    seq(|picks|, i requires 0 <= i < |picks| => population[picks[i]])
  }

  // ---------------------------------------------------------------------
  // Signup

  datatype OrgCreate = OrgCreate(name: string, email: string, password: string)

  datatype OrgRecord = OrgRecord(name: string, email: string, domain: string)
  datatype UserRecord = UserRecord(email: string, passwordHash: string, verified: bool, otp: string)
  datatype ProjectRecord = ProjectRecord(name: string, description: string)

  /** The new user's link to the default project; both ids are the ones
      the store assigns to the new user and project. */
  datatype ProjectLinkRecord = ProjectLinkRecord(isSuper: bool, permission: ProjectService.Permission, disabled: bool)

  /** Everything a successful signup writes, in order: the org, its
      "Admin" role and "Admin Menu Template", the unverified user, the
      promotion of the user's org link to an enabled super-admin link
      (when the store created one), the default project with the user as
      its OWNER, and the verification OTP mailed to the user. */
  datatype Signup = Signup(
    org: OrgRecord,
    roleName: string,
    menuTemplateName: string,
    user: UserRecord,
    orgLinkPromoted: bool,
    project: ProjectRecord,
    ownerLink: ProjectLinkRecord,
    otpMail: (string, string))

  /** `createOrg`. `orgDomains` and `userEmails` are the domains of the
      stored organisations and the stored users' e-mails; `orgLinkFound`
      is whether the store created a user-org link; `otp` comes from
      `GenerateOtp`; `hash` is the password hasher. */
  function CreateOrg(
    req: OrgCreate, orgDomains: set<string>, userEmails: set<string>,
    orgLinkFound: bool, otp: string, hash: string -> string): (r: Result<Signup>)
    ensures '@' !in req.email ==> r == Err(Http(BadRequest, InvalidEmail))
    ensures '@' in req.email ==> ParseEmail(req.email).Ok?
    ensures '@' in req.email && ParseEmail(req.email).value.0 in orgDomains ==>
      r == Err(Http(Conflict, OrgExists))
    ensures '@' in req.email && ParseEmail(req.email).value.0 !in orgDomains && req.email in userEmails ==>
      r == Err(Http(Conflict, UserExists))
    ensures r.Ok? <==> '@' in req.email && ParseEmail(req.email).value.0 !in orgDomains && req.email !in userEmails
    ensures r.Ok? ==>
      var (domain, domainName) := ParseEmail(req.email).value;
      && r.value.org == OrgRecord(req.name, req.email, domain)
      && r.value.user == UserRecord(req.email, hash(TruncatedPassword(req.password)), false, otp)
      && r.value.orgLinkPromoted == orgLinkFound
      && r.value.roleName == "Admin" && r.value.menuTemplateName == "Admin Menu Template"
      && r.value.project.name == Capitalize(domainName) + " Project"
      && r.value.project.description == DefaultProjectDescription(domainName)
      && r.value.ownerLink == ProjectLinkRecord(true, ProjectService.OWNER, false)
      && r.value.otpMail == (req.email, otp)
  {
    match ParseEmail(req.email)
    case Err(e) => Err(e)
    case Ok((domain, domainName)) =>
      if domain in orgDomains then Err(Http(Conflict, OrgExists))
      else if req.email in userEmails then Err(Http(Conflict, UserExists))
      else
        Ok(Signup(
          OrgRecord(req.name, req.email, domain),
          "Admin",
          "Admin Menu Template",
          UserRecord(req.email, hash(TruncatedPassword(req.password)), false, otp),
          orgLinkFound,
          ProjectRecord(DefaultProjectName(domainName), DefaultProjectDescription(domainName)),
          ProjectLinkRecord(true, ProjectService.OWNER, false),
          (req.email, otp)))
  }

  /** Signing up twice with the same e-mail: the second attempt is
      refused on the domain before the e-mail is even looked at. */
  lemma SecondSignupRefusedOnDomain(
    req: OrgCreate, orgDomains: set<string>, userEmails: set<string>,
    orgLinkFound: bool, otp: string, hash: string -> string)
    requires CreateOrg(req, orgDomains, userEmails, orgLinkFound, otp, hash).Ok?
    ensures var s := CreateOrg(req, orgDomains, userEmails, orgLinkFound, otp, hash).value;
      CreateOrg(req, orgDomains + {s.org.domain}, userEmails + {s.user.email}, orgLinkFound, otp, hash)
        == Err(Http(Conflict, OrgExists))
  {
  }

  datatype OrgSummary = OrgSummary(id: int, name: string)

  datatype Org = Org(id: int, name: string, email: string, domain: string)

  const SearchLimit := 10

  /** `searchOrg`: `matches` are the organisations the store finds for
      the query, in its order; the store keeps the first ten and each is
      reported by id and name. */
  function SearchOrg(matches: seq<Org>): (r: seq<OrgSummary>)
    ensures |r| <= SearchLimit
    ensures |r| == if |matches| < SearchLimit then |matches| else SearchLimit
    ensures forall i :: 0 <= i < |r| ==> r[i] == OrgSummary(matches[i].id, matches[i].name)
  {
    var found := if |matches| < SearchLimit then matches else matches[..SearchLimit];
    seq(|found|, i requires 0 <= i < |found| => OrgSummary(found[i].id, found[i].name))
  }
}
