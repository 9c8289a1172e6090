# A/B-testing server: decision engine and its feeders

This project models the core of an A/B-testing server in Dafny. A browser
snippet asks the server which variation of each running experiment a visitor
should see, and the server decides as follows:

- **Identity.** A visitor without an id (or with id 0) gets a random six-digit
  id.
- **Candidates.** The project's ACTIVE experiments are read through a
  60-second in-memory cache.
- **Targeting.** Each experiment's URL conditions are checked: IS, CONTAIN,
  IS_NOT and NOT_CONTAIN, combined with ALL or ANY.
- **Sticky assignment.** A visitor who already has an assignment (a *bucket*)
  in an experiment keeps that variation.
- **Fresh bucketing.** Otherwise the visitor is placed with a MurmurHash3 of
  `"<user>:<experiment>"`, scaled to 1..10000 and compared with the variations'
  cumulative traffic percentages. The new assignment is queued as a background
  write, and the write is skipped if a row already exists.

The model also covers the components that feed that engine:

- the bucket, experiment and metric stores;
- experiment creation (with its Control variation), paging and partial update;
- variation creation with an even traffic split, variation update and traffic
  reallocation, with the request validators;
- project creation, assignment and removal of users;
- organisation signup (e-mail parsing, conflict checks, password truncation,
  OTP);
- login (active organisations and projects, token pair).

Stores whose rows the source updates in place are classes:

- `BucketRepository`
- `ExperimentRepository`
- `MetricsRepository`
- the project-link table of `ProjectService`
- the cache of `DecisionService`

Algorithms with loops are methods proved against specification functions:

- the decision loop;
- targeting;
- the cumulative-traffic selection;
- the even split over an array;
- the reallocation;
- the metric counter update;
- the owner-link loop;
- the active-membership filter.

The hash function, the random number generator, the clock, the password
hasher and the URL validator are parameters. JWT encoding is left out:
`GenerateToken` and `Login` return the token claims unencoded.

## Model

| member | source | states |
|---|---|---|
| DecisionEngine.DecisionService.MakeDecision | src/decision/services/DecisionService.py:31-91 | the response's id is the supplied id unless it is missing or 0, else the generated one; its decisions and queued writes are exactly those of the decision loop over the experiment snapshot (cached list on a hit, fresh fetch otherwise), in list order; the cache is refreshed only on a miss |
| DecisionEngine.ResolveEndUserId | src/decision/services/DecisionService.py:40 | a supplied non-zero id is kept; a missing or 0 id is replaced by the generated one |
| DecisionEngine.DecisionService.GetActiveExperiments | src/decision/services/DecisionService.py:137-150 | a cache entry younger than 60 s is returned with the cache unchanged; otherwise the first 1000 active experiments of the project are fetched and stored with the current time |
| DecisionEngine.DecisionService.DecideExperiment | src/decision/services/DecisionService.py:47-89 | one loop iteration yields exactly the decision and write of `OutcomeOf`: nothing when not targeted, the stored variation when a bucket exists, else the hashed choice plus one queued write |
| DecisionEngine.OutcomeOf | src/decision/services/DecisionService.py:49-89 | untargeted experiments are skipped; with a stored row the result is sticky (never bucketed) and present iff the stored variation still exists; without one it is bucketed iff the selection covers the visitor's bucket value, and it is that variation |
| DecisionEngine.FindVariation | src/decision/services/DecisionService.py:58 | the found variation is in the list and has the id; None means no variation has it |
| DecisionEngine.FindVariationOfMember | src/decision/services/DecisionService.py:58 | with distinct ids, looking up a member's id finds that member |
| DecisionEngine.DecisionFrom | src/decision/services/DecisionService.py:56-89 | an outcome contributes no decision when skipped, else exactly one, for that experiment |
| DecisionEngine.BuildDecision | src/decision/services/DecisionService.py:152-188 | the decision carries the experiment's id, title, js and css and the variation's id, title, js and css, and passes conditions and metrics through |
| DecisionEngine.PrefixStep | src/decision/services/DecisionService.py:47-89 | extending the processed prefix by one experiment appends that experiment's decision and write |
| DecisionEngine.DecisionService.RecordAssignmentNow | src/decision/services/DecisionService.py:93-99 | the assignment is inserted only when no row exists for (experiment, visitor) |
| DecisionEngine.DecisionService.RunPendingWrites | src/decision/services/DecisionService.py:88 | running the queued background writes in order leaves the table `ApplyWrites` describes |
| DecisionProperties.AtMostOneDecisionPerExperiment | src/decision/services/DecisionService.py:47-89 | there are no more decisions than experiments, and no more writes than decisions |
| DecisionProperties.DecisionsFollowListOrder | src/decision/services/DecisionService.py:47-91 | the decisions come from strictly increasing positions of the experiment list, one per experiment |
| DecisionProperties.WritesComeFromFreshBucketing | src/decision/services/DecisionService.py:85-88 | every queued write comes from an experiment bucketed fresh in this request, for this visitor and a key with no stored row |
| DecisionProperties.FreshBucketingIsQueued | src/decision/services/DecisionService.py:85-88 | every fresh bucketing queues its write |
| DecisionProperties.ApplyWritesLookup | src/decision/services/DecisionService.py:93-99 | running writes never changes an existing row; a new key appears iff some write has it, with that write's variation when it is the only one |
| DecisionProperties.OutcomeAfterWrites | src/decision/services/DecisionService.py:54-89 | after the queued writes have run, each experiment decides the same again and queues nothing |
| DecisionProperties.SameDecisionsWhenPointwise | src/decision/services/DecisionService.py:47-91 | when each experiment decides the same on two tables, the whole loop does |
| DecisionProperties.StickyIdempotence | src/decision/services/DecisionService.py:54-99 | repeating a request after its writes have run yields the same decisions and queues no write |
| Targeting.CheckTargeting | src/decision/services/DecisionService.py:101-135 | the result is `Targets`: true with no conditions, else all (ALL) or any (ANY) of the conditions hold |
| Targeting.EvaluateCondition | src/decision/services/DecisionService.py:106-130 | a positive operator matches iff some URL equals / occurs in the visited URL; a negative one iff none does |
| Targeting.IsSubstring | src/decision/services/DecisionService.py:112 | true iff the pattern occurs at some offset of the URL |
| Targeting.EmptyPatternList | src/decision/services/DecisionService.py:107-128 | with no URLs a positive condition fails and a negative one holds |
| Targeting.TargetingExamples | src/decision/services/DecisionService.py:110-128 | CONTAIN "/pricing" matches a deeper pricing URL; IS_NOT "/checkout" admits "/cart" and refuses "/checkout" |
| Bucketing.BucketValue | src/decision/services/DecisionService.py:69 | the bucket value lies in 1..10000 |
| Bucketing.BucketOf | src/decision/services/DecisionService.py:65-69 | the visitor's bucket value for an experiment lies in 1..10000 |
| Bucketing.Select | src/decision/services/DecisionService.py:72-83 | the chosen index is the first variation whose cumulative bound covers the value; None iff no bound does |
| Bucketing.SelectFrom | src/decision/services/DecisionService.py:75-83 | the same from a given position on |
| Bucketing.ChooseVariation | src/decision/services/DecisionService.py:72-83 | the loop chooses exactly the variation `Select` names, or none |
| Bucketing.SelectIsFirstCovering | src/decision/services/DecisionService.py:79-81 | the first covering position is the one selected |
| Bucketing.CumulativeIsScaledTotal | src/decision/services/DecisionService.py:75-83 | the cumulative bound after k variations is 100 times their traffic total |
| Bucketing.CumulativeMonotone | src/decision/services/DecisionService.py:83 | with non-negative traffic the cumulative bound never decreases |
| Bucketing.FullAllocationAlwaysSelects | src/decision/services/DecisionService.py:72-85 | when traffic totals 100, every bucket value selects a variation |
| Bucketing.UncoveredRemainderSelectsNothing | src/decision/services/DecisionService.py:72-85 | values above 100 times the traffic total select nothing |
| Bucketing.SelectRange | src/decision/services/DecisionService.py:72-83 | variation i is selected iff the value lies in its half-open cumulative interval |
| Bucketing.CutoverExample | src/decision/services/DecisionService.py:72-83 | with a 30/70 split, value 3000 goes to the first variation and 3001 to the second |
| BucketStore.BucketRepository.Get | src/bucket/repository/BucketRepositoryImp.py:11-16 | a row is returned iff one is stored for (experiment, visitor), and it is that row |
| BucketStore.BucketRepository.Add | src/bucket/repository/BucketRepositoryImp.py:18-30 | inserts the row when its key is free; on a duplicate key it keeps and returns the existing row; other rows are unchanged |
| BucketStore.AddKeepsOtherRows | src/bucket/repository/BucketRepositoryImp.py:18-30 | an insert adds exactly its key, keeps the table keyed by (experiment, visitor) and touches no other row |
| BucketStore.RepeatedAddsReturnFirstRow | src/bucket/repository/BucketRepositoryImp.py:24-30 | racing inserts for one key all return the first stored row, and the table holds it |
| BucketStore.AddAll | src/bucket/repository/BucketRepositoryImp.py:18-30 | a sequence of inserts returns one row per insert; rows already stored never change, the table gains exactly the inserted keys, and each insert returns the row finally stored under its key |
| ExperimentStore.ExperimentRepository.Add | src/experiment/repository/ExperimentRepositoryImp.py:14-18 | appends the experiment with the next id and returns it |
| ExperimentStore.ExperimentRepository.GetById | src/experiment/repository/ExperimentRepositoryImp.py:20-24 | found iff some experiment has the id; otherwise 404 "Experiment not found" |
| ExperimentStore.ExperimentRepository.GetAll | src/experiment/repository/ExperimentRepositoryImp.py:26-32 | at most `rows` experiments of the project: the contiguous slice of the project's experiments at offset (page-1)*rows, full unless they run out, and then reaching the end of the list |
| ExperimentStore.ExperimentRepository.CountAll | src/experiment/repository/ExperimentRepositoryImp.py:34-38 | counts exactly the project's experiments |
| ExperimentStore.ExperimentRepository.Edit | src/experiment/repository/ExperimentRepositoryImp.py:40-44 | replaces the row with the same id in place, or appends when none has it |
| ExperimentStore.ExperimentRepository.GetAllActive | src/experiment/repository/ExperimentRepositoryImp.py:46-57 | at most `rows` experiments, all ACTIVE and of the project: the contiguous slice of those at offset (page-1)*rows, full unless they run out, and then reaching the end of the list |
| ExperimentStore.OfProject | src/experiment/repository/ExperimentRepositoryImp.py:28-30 | an experiment is kept iff it belongs to the project |
| ExperimentStore.ActiveOfProject | src/experiment/repository/ExperimentRepositoryImp.py:48-55 | an experiment is kept iff it belongs to the project and is ACTIVE |
| ExperimentStore.Page | src/experiment/repository/ExperimentRepositoryImp.py:31 | the page is the contiguous slice at offset (page-1)*rows, full unless the list runs out |
| ExperimentStore.FirstPageHoldsAll | src/experiment/repository/ExperimentRepositoryImp.py:31 | the first page of a list no longer than `rows` is the whole list |
| ExperimentStore.FindById | src/experiment/repository/ExperimentRepositoryImp.py:20-24 | the found position is the first with the id; None iff no row has it |
| ExperimentService.NewExperiment | src/experiment/services/ExperimentService.py:22-54 | the new experiment copies the request's fields and holds only a Control variation with 100% traffic and no payload, no conditions and no metrics |
| ExperimentService.CreateExperiment | src/experiment/services/ExperimentService.py:22-54 | a failed project lookup is passed through and nothing is stored; otherwise the new experiment is appended with the next id and reported |
| ExperimentService.GetExperiments | src/experiment/services/ExperimentService.py:56-69 | the reported total is the supplied one unless missing or 0, else the project count; items are exactly the requested page (`Page`) of the project's experiments, hence all of them on a first page that fits |
| Pagination.ReportedTotal | src/experiment/services/ExperimentService.py:59-61 | the supplied total is kept unless it is missing or 0, in which case the count is reported |
| ExperimentService.PatchSemantics | src/experiment/services/ExperimentService.py:81-98 | each of the nine fields is overwritten iff the request supplies it; id, project and child lists are unchanged |
| ExperimentService.PatchIdempotent | src/experiment/services/ExperimentService.py:81-98 | applying the same update twice equals applying it once |
| ExperimentService.EmptyPatchIsIdentity | src/experiment/services/ExperimentService.py:81-98 | an update the validator rejects as empty would change nothing |
| ExperimentService.UpdateExperiment | src/experiment/services/ExperimentService.py:76-101 | a missing experiment gives the store's 404 and changes nothing; otherwise the patched experiment replaces it in place and is returned |
| ExperimentUpdateRequest.ValidateUrl | src/experiment/dtos/ExperimentUpdateRequestDto.py:20-28 | an absent URL passes; a present one passes iff it is an HTTP URL, else the validation error |
| ExperimentUpdateRequest.CheckAtLeastOneField | src/experiment/dtos/ExperimentUpdateRequestDto.py:31-35 | accepted iff some field is present, unchanged; else the "at least one field" error |
| ExperimentUpdateRequest.ValidateExperimentUpdate | src/experiment/dtos/ExperimentUpdateRequestDto.py:20-35 | the URL check runs first, then the at-least-one-field check |
| TrafficAllocationRequest.ValidateTotalTraffic | src/variation/dtos/TrafficAllocationRequestDto.py:12-17 | accepted iff the traffic values sum to 100, unchanged; else the message with the current total |
| TrafficAllocationRequest.ValidatorBoundaries | src/variation/dtos/TrafficAllocationRequestDto.py:12-17 | the empty list is rejected; negative values and repeated ids pass when the sum is 100 |
| VariationUpdateRequest.CheckAtLeastOneField | src/variation/dtos/VariationUpdateRequestDto.py:9-13 | accepted iff title, js or css is present, unchanged; else the "At least one field" error |
| VariationService.DistributeTrafficEvenly | src/variation/services/VariationService.py:82-89 | the array becomes the even split of its old contents |
| VariationService.EvenSharesSumTo100 | src/variation/services/VariationService.py:84-89 | the even shares of any non-empty count sum to 100 |
| VariationService.SharesTotalClosedForm | src/variation/services/VariationService.py:85-89 | the first k shares sum to k*(100 div n) plus the number of them that got the remainder |
| VariationService.EvenSharesAreFair | src/variation/services/VariationService.py:85-89 | shares are non-increasing along the list and differ by at most 1 |
| VariationService.EvenlyDistributedPrefixTotal | src/variation/services/VariationService.py:87-89 | the traffic of the first k variations after the split is the first k shares |
| VariationService.EvenlyDistributedTotal | src/variation/services/VariationService.py:82-89 | after the split a non-empty list totals 100; an empty one is unchanged |
| VariationService.ThreeWaySplit | src/variation/services/VariationService.py:85-89 | three variations get 34, 33 and 33 |
| VariationService.CreateVariation | src/variation/services/VariationService.py:19-35 | a missing experiment gives its 404; otherwise the new variation is appended, every variation gets its even share, the list totals 100 and the response is the new variation's |
| VariationService.UpdateVariation | src/variation/services/VariationService.py:38-49 | a missing variation gives 404 "Variation not found"; otherwise each supplied field is overwritten, the others kept, and id, experiment and traffic unchanged |
| VariationService.UpdateVariationIdempotent | src/variation/services/VariationService.py:41-46 | applying the same update twice equals applying it once |
| VariationService.IndexById | src/variation/services/VariationService.py:59 | the map's keys are the stored ids and each maps to its variation |
| VariationService.LastTrafficStep | src/variation/services/VariationService.py:72-74 | processing one more allocation sets the traffic of its variation and no other |
| VariationService.UpdateTrafficAllocation | src/variation/services/VariationService.py:52-79 | no stored variations give 404; differing id sets give 400; otherwise each variation gets the traffic of the last allocation naming it |
| VariationProperties.ReallocationKeepsTotal | src/variation/services/VariationService.py:62-77 | with distinct ids on both sides and equal id sets, the saved total equals the requested total |
| VariationProperties.RequestedTrafficApplied | src/variation/services/VariationService.py:72-74 | with distinct allocation ids each variation gets exactly its requested traffic |
| VariationProperties.RepeatedIdLosesTraffic | src/variation/services/VariationService.py:62-77 | an allocation list that repeats an id passes both checks yet saves a total of 50 |
| VariationProperties.CheckedReallocation | src/variation/services/VariationService.py:52-77 | the reallocation that also refuses repeated ids succeeds iff the checks pass, and then saves exactly the requested total (100 after validation) |
| MetricsStore.MetricsRepository.Add | src/metrics/repository/MetricsRepositoryImp.py:13-17 | appends the metric with the next id and returns it |
| MetricsStore.MetricsRepository.GetByExperimentId | src/metrics/repository/MetricsRepositoryImp.py:19-22 | exactly the experiment's metrics |
| MetricsStore.MetricsRepository.GetById | src/metrics/repository/MetricsRepositoryImp.py:24-28 | found iff a metric has the id; otherwise 404 "Metric not found" |
| MetricsStore.MetricsRepository.Delete | src/metrics/repository/MetricsRepositoryImp.py:30-32 | the metric's row is removed, the others kept, and it can no longer be found |
| MetricsStore.MetricsRepository.IncrementTrigger | src/metrics/repository/MetricsRepositoryImp.py:34-51 | the QA or LIVE counter of the metric with the id goes up by one; a missing id gives 404 "Metric not found!" and changes nothing |
| MetricsStore.IncrementTouchesOneCounter | src/metrics/repository/MetricsRepositoryImp.py:44-49 | only the matching row changes, and only the counter of the mode |
| MetricsStore.IncrementedTotals | src/metrics/repository/MetricsRepositoryImp.py:34-51 | with distinct ids the mode's total grows by one when the id exists |
| MetricsStore.TrackingCountsOnce | src/metrics/repository/MetricsRepositoryImp.py:34-51 | a QA hit leaves the LIVE total alone and vice versa |
| MetricsStore.Incremented | src/metrics/repository/MetricsRepositoryImp.py:44-49 | the update keeps the number and ids of the rows |
| MetricsStore.OfExperiment | src/metrics/repository/MetricsRepositoryImp.py:19-22 | a metric is kept iff it belongs to the experiment |
| MetricsStore.Without | src/metrics/repository/MetricsRepositoryImp.py:30-32 | a metric is kept iff its id differs |
| MetricsStore.WithoutKeepsDistinct | src/metrics/repository/MetricsRepositoryImp.py:30-32 | deleting keeps the ids distinct |
| MetricsStore.IndexOf | src/metrics/repository/MetricsRepositoryImp.py:24-28 | the found position has the id; None iff no row has it |
| ProjectService.ProjectService.CreateProject | src/project/services/ProjectService.py:29-52 | the project is reported with its new id; every super-admin link with a truthy user id adds an OWNER link to it |
| ProjectService.OwnerLinksAddedSpec | src/project/services/ProjectService.py:38-46 | existing links are kept; new links are OWNER links to the new project; a user is linked iff some super-admin link names that user with a non-zero id |
| ProjectService.ProjectService.AssignUser | src/project/services/ProjectService.py:78-105 | a failed project lookup is passed through; an existing link gives 409; otherwise an EDITOR link is added and the success message returned |
| ProjectService.ProjectService.RemoveUserFromProject | src/project/services/ProjectService.py:122-137 | no link gives 404; otherwise the link is deleted and the success message returned |
| ProjectService.AssignThenRemoveRestores | src/project/services/ProjectService.py:78-137 | assigning then removing a user restores the link table |
| ProjectService.ToResponse | src/project/services/ProjectService.py:68-74 | the organisation name is the linked organisation's, or "" when there is none |
| ProjectService.GetProjects | src/project/services/ProjectService.py:54-76 | the total follows the missing-or-0 rule; one response per project, in order |
| ProjectService.GetProjectsByUserId | src/project/services/ProjectService.py:107-120 | one response per (project, link) pair, in order |
| OrgService.ParseEmail | src/org/services/OrgService.py:54-60 | error 400 "Invalid email format" iff the e-mail has no '@'; otherwise the domain is the text up to the next '@' after the first, and the domain name its text up to the first '.' |
| OrgService.Split | src/org/services/OrgService.py:55-56 | splitting always yields at least one piece |
| OrgService.SplitJoinRoundTrip | src/org/services/OrgService.py:55-56 | joining the pieces with the separator gives back the string |
| OrgService.SplitPieces | src/org/services/OrgService.py:55-56 | no piece holds the separator; there are two or more iff it occurs; the first piece is the leading field |
| OrgService.SplitSecond | src/org/services/OrgService.py:55 | the second piece is the leading field after the first separator |
| OrgService.FirstIndex | src/org/services/OrgService.py:55 | the position of the first occurrence |
| OrgService.LeadingFieldUnique | src/org/services/OrgService.py:55-56 | a string has one leading field |
| OrgService.ParseEmailDetermined | src/org/services/OrgService.py:54-60 | the parse is exactly the domain and domain name of the characterisation |
| OrgService.PlainEmailExample | src/org/services/OrgService.py:54-60 | "ann@acme.io" parses to ("acme.io", "acme") |
| OrgService.TrailingAtExample | src/org/services/OrgService.py:54-60 | "x@" parses to ("", "") rather than failing |
| OrgService.DoubleAtExample | src/org/services/OrgService.py:54-60 | "a@b@c.d" parses to ("b", "b") |
| OrgService.CreateOrg | src/org/services/OrgService.py:52-133 | checks in order: bad e-mail 400, known domain 409, known user 409; a signup iff all pass, writing the org, the Admin role and menu template, an unverified user with the hash of the truncated password and the OTP, the link promotion, the "<Domain> Project" with its description, the user's enabled super OWNER link to it and the OTP mail |
| OrgService.SecondSignupRefusedOnDomain | src/org/services/OrgService.py:62-67 | once a signup is stored, the same request is refused with the domain conflict |
| OrgService.Capitalize | src/org/services/OrgService.py:114 | first character upper-cased and the rest lower-cased (ASCII), same length |
| OrgService.CapitalizeIdempotent | src/org/services/OrgService.py:114 | capitalising twice equals capitalising once |
| OrgService.TruncatedPassword | src/org/services/OrgService.py:94 | the first 72 characters, or the whole password when shorter |
| OrgService.LongPasswordsShareHasherInput | src/org/services/OrgService.py:94-98 | passwords agreeing on their first 72 characters hand the hasher the same input |
| OrgService.GenerateOtp | src/org/services/OrgService.py:135-137 | six characters, all drawn from the population |
| OrgService.SearchOrg | src/org/services/OrgService.py:139-145 | the first ten matches at most, each as (id, name), in order |
| AuthService.Login | src/auth/services/AuthService.py:30-78 | in order: unknown e-mail 404, unverified 401, wrong password 401, no active organisation 403, no active project 403; otherwise the token pair for the active ones |
| AuthService.ActiveOf | src/auth/services/AuthService.py:44-68 | an item is kept iff the user's link to it exists and is not disabled |
| AuthService.FilterActive | src/auth/services/AuthService.py:44-68 | the loop keeps exactly `ActiveOf`, in order |
| AuthService.ActiveOfAppend | src/auth/services/AuthService.py:44-52 | filtering distributes over concatenation |
| AuthService.ActiveOfAllEnabled | src/auth/services/AuthService.py:44-52 | when every link is enabled nothing is filtered out |
| AuthService.GenerateToken | src/auth/services/AuthService.py:103-123 | both tokens carry e-mail, user id, organisations and projects; each expires its configured minutes after its own clock read |
| AuthService.TokensDifferOnlyInExpiry | src/auth/services/AuthService.py:103-123 | access and refresh tokens differ only in their expiry, are equal iff the two expiry times coincide, and the refresh token outlives the access token when its lifetime is longer |
| Common.NatToDecimal | src/decision/services/DecisionService.py:65 | the decimal text of a number is made of digits, denotes that number (Horner's rule) and starts with '0' only for 0 |
| Common.NatToDecimalInjective | src/decision/services/DecisionService.py:65 | different numbers have different decimal texts |

## Left out

- MurmurHash3, Python's `random`, the clock, JWT encoding, bcrypt and pydantic's `HttpUrl` are not modelled. They become parameters (`hash`, `generatedId` and OTP `picks`, `now`, `accessNow`/`refreshNow`, `verify`/`hash`, `isHttpUrl`), except JWT encoding, which is left out: `GenerateToken` and `Login` return the unencoded `Payload` claims, not the signed token strings. Properties hold for every such function.
- OrgService.CreateOrg: the password hasher is a function parameter, so the model determines the stored hash by its input. bcrypt salts every call, so in the source only the hasher's input (the truncated password) is determined.
- DecisionEngine.DecisionService.GetActiveExperiments: the source reads the clock twice, for the age check and for the stored timestamp. The model uses one `now` for both.
- DecisionEngine.DecisionService: the cache is a class attribute shared by every service instance in the source. The model keeps it per instance.
- FastAPI's background tasks run after the response. Their interleaving with other requests and the database's concurrency are not modelled. The queued writes are returned as a list, and `RunPendingWrites` runs them in order.
- DecisionEngine.BuildDecision: passes metrics and conditions through. The source builds each metric DTO with `triggered=m.triggered` (src/decision/services/DecisionService.py:172), but the metric entity has no `triggered` attribute and the response DTO no such field. As written, `makeDecision` therefore fails for any request in which an experiment with at least one metric gets a decision. The model returns that decision with the metrics unchanged. Condition URLs are passed through without the `str()` conversion.
- ExperimentService.CreateExperiment: the model uses the request fields the service reads. The Control variation's ids are placeholders (0) that the store assigns.
- Session, commit and refresh calls, SQL and ORM relationship loading are not modelled. Stores are sequences or maps inside classes, with `nextId` standing for the auto-increment key.
- Pagination: `page >= 1` is required. For page 0 the source computes a negative offset, which the database handles in its own way.
- VariationRepositoryImp, MetricsService, UserRepositoryImp, and the project, organisation, user-org-link and auth repositories are not part of this model. Their lookups are parameters: `stored`, `projectLookup`, `orgDomains`, `userEmails`, `orgLinkFound`, `users`, the link tables, `superAdminLinks` and `matches`.
- VariationService.UpdateTrafficAllocation and CheckedReallocation: they require distinct stored variation ids, as the primary key guarantees.
- ProjectService.ProjectService.CreateProject: requires that no link to the new project id exists yet. The store assigns a fresh id.
- AuthService `refresh` (src/auth/services/AuthService.py:80-101) is not modelled. After decoding the token, it returns 401 when the `sub` claim is missing and 404 for an unknown user. On success it calls `generateToken(dbUser)` with one argument (line 98), while `generateToken` takes three (line 103). As written, the success path raises a TypeError instead of issuing tokens, so there is no intended result to model it against.
- OrgService.Capitalize: only ASCII case mapping is modelled. Python's `str.capitalize` also maps other Unicode letters.
- OrgService.TruncatedPassword: it truncates to 72 characters, as the slice does. bcrypt's own 72-byte limit on the encoded password is not modelled.
- OrgService.GenerateOtp: the digit population constant (src/utils/Constants.py) is not part of this model. The population is a parameter.
- The role, menu template and menu file of signup are recorded by name only. The menu file's contents are not modelled.
- Experiment condition type: the source compares the stored value with the string "ALL". The model assumes a string enum, so a stored ALL compares equal.
- Operator names follow the code (CONTAIN, NOT_CONTAIN).
- The cache does not fall back to stale data when the database fails. Database failure is not modelled.
- Metric counters are integers starting at 0, and a metric's experiment id is an integer. The source's nullable counter and experiment-id columns are not modelled. The nullable title, selector and description are `Option`s.

## Findings

| source | as written | input that shows it | evidently intended | confidence | as-written member | corrected member |
|---|---|---|---|---|---|---|
| src/variation/services/VariationService.py:62-77 | the request validator checks only that the traffic values sum to 100, and the service checks only that the *set* of ids equals the stored set; a later allocation for the same id overwrites an earlier one | stored variations 1 and 2 with allocations [(1,50),(1,50),(2,0)]: both checks pass, and the saved traffic totals 50 | a saved allocation always totals 100: repeated ids are refused | not executed | VariationProperties.RepeatedIdLosesTraffic | VariationProperties.CheckedReallocation |
