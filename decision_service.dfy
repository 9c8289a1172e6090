/** The decision engine (src/decision/services/DecisionService.py):
    resolves the visitor's identity, reads the project's active experiments
    through a 60-second cache, and for each targeted experiment uses the
    stored assignment or buckets the visitor afresh, queueing the write of
    a new assignment instead of performing it.

    Foreign inputs are parameters: the MurmurHash3 function (`hash`), the
    random visitor id (`generatedId`) and the clock (`now`, in
    microseconds). FastAPI's background tasks become the returned queue of
    pending writes, run later by `RunPendingWrites`. */
module DecisionEngine {
  import opened Common
  import opened Entities
  import opened Targeting
  import opened Bucketing
  import opened BucketStore
  import opened ExperimentStore

  datatype VariationDecision = VariationDecision(
    variationId: int,
    variationTitle: string,
    js: Option<string>,
    css: Option<string>)

  datatype ExperimentDecision = ExperimentDecision(
    experimentId: int,
    experimentTitle: string,
    experimentJs: Option<string>,
    experimentCss: Option<string>,
    variation: VariationDecision,
    conditions: seq<Condition>,
    metrics: seq<Metric>)

  datatype DecisionResponse = DecisionResponse(endUserId: int, decisions: seq<ExperimentDecision>)

  /** A queued `recordAssignment(expId, userId, varId)` call. */
  datatype PendingWrite = RecordAssignment(expId: int, userId: int, varId: int)

  datatype CacheEntry = CacheEntry(experiments: seq<Experiment>, storedAt: int)

  /** Cache lifetime: 60 seconds, in microseconds. */
  const CacheTtl: int := 60_000_000

  /** Page size of the active-experiment fetch. */
  const CacheRows: nat := 1000

  const MinGeneratedId: int := 100000
  const MaxGeneratedId: int := 999999

  /** `buildDecisionDto`: the experiment's and the variation's id, title
      and payload; conditions and metrics are passed through. */
  function BuildDecision(exp: Experiment, v: Variation): (d: ExperimentDecision)
    ensures d.experimentId == exp.id && d.variation.variationId == v.id
    ensures d.experimentTitle == exp.title && d.variation.variationTitle == v.title
    ensures d.experimentJs == exp.js && d.experimentCss == exp.css
    ensures d.variation.js == v.js && d.variation.css == v.css
    ensures d.conditions == exp.conditions && d.metrics == exp.metrics
  {
    ExperimentDecision(
      exp.id, exp.title, exp.js, exp.css,
      VariationDecision(v.id, v.title, v.js, v.css),
      exp.conditions, exp.metrics)
  }

  /** The visitor id: the supplied one unless it is missing or 0, in which
      case the generated one. */
  function ResolveEndUserId(supplied: Option<int>, generatedId: int): (uid: int)
    ensures supplied.Some? && supplied.value != 0 ==> uid == supplied.value
    ensures supplied.None? || supplied.value == 0 ==> uid == generatedId
  {
    if supplied.Some? && supplied.value != 0 then supplied.value else generatedId
  }

  /** `next(v for v in variations if v.id == id)`: the first variation
      with that id, if any. */
  function FindVariation(vs: seq<Variation>, id: int): (r: Option<Variation>)
    ensures r.Some? ==> r.value in vs && r.value.id == id
    ensures r.None? ==> forall v :: v in vs ==> v.id != id
  {
    if vs == [] then None
    else if vs[0].id == id then Some(vs[0])
    else FindVariation(vs[1..], id)
  }

  /** With distinct variation ids, looking up a member's id finds it. */
  lemma {:induction false} FindVariationOfMember(vs: seq<Variation>, v: Variation)
    requires DistinctVariationIds(vs) && v in vs
    ensures FindVariation(vs, v.id) == Some(v)
  {
    if vs[0] != v {
      var k :| 0 <= k < |vs| && vs[k] == v;
      assert k > 0 && vs[0].id != v.id;
      assert vs[1..][k - 1] == v;
      FindVariationOfMember(vs[1..], v);
    }
  }

  /** What one experiment contributes to a decision. */
  datatype Outcome = Skipped | Sticky(v: Variation) | Bucketed(v: Variation)

  /** One iteration of the decision loop, given the assignment table as
      it was when the request arrived. */
  function OutcomeOf(exp: Experiment, url: string, uid: int, rows: map<Key, Bucket>, hash: string -> Int32): (o: Outcome)
    ensures !Targets(exp, url) ==> o == Skipped
    ensures Targets(exp, url) && (exp.id, uid) in rows ==>
      && !o.Bucketed?
      && (o.Sticky? <==> exists v :: v in exp.variations && v.id == rows[(exp.id, uid)].variationId)
      && (o.Sticky? ==> o.v in exp.variations && o.v.id == rows[(exp.id, uid)].variationId)
    ensures Targets(exp, url) && (exp.id, uid) !in rows ==>
      && !o.Sticky?
      && (o.Bucketed? <==> Select(exp.variations, BucketOf(hash, uid, exp.id)).Some?)
      && (o.Bucketed? ==> o.v == exp.variations[Select(exp.variations, BucketOf(hash, uid, exp.id)).value])
  {
    if !Targets(exp, url) then Skipped
    else if (exp.id, uid) in rows then
      match FindVariation(exp.variations, rows[(exp.id, uid)].variationId)
      case Some(v) => Sticky(v)
      case None => Skipped
    else
      match Select(exp.variations, BucketOf(hash, uid, exp.id))
      case Some(i) => Bucketed(exp.variations[i])
      case None => Skipped
  }

  function DecisionFrom(exp: Experiment, o: Outcome): (r: seq<ExperimentDecision>)
    ensures |r| == if o.Skipped? then 0 else 1
    ensures forall d :: d in r ==> d.experimentId == exp.id
  {
    match o
    case Skipped => []
    case Sticky(v) => [BuildDecision(exp, v)]
    case Bucketed(v) => [BuildDecision(exp, v)]
  }

  function WriteFrom(exp: Experiment, uid: int, o: Outcome): seq<PendingWrite>
  {
    if o.Bucketed? then [RecordAssignment(exp.id, uid, o.v.id)] else []
  }

  /** The decisions of the loop over `exps`, in list order. */
  function DecisionsOf(exps: seq<Experiment>, url: string, uid: int, rows: map<Key, Bucket>, hash: string -> Int32): seq<ExperimentDecision>
  {
    if exps == [] then []
    else
      var last := exps[|exps| - 1];
      DecisionsOf(exps[..|exps| - 1], url, uid, rows, hash) + DecisionFrom(last, OutcomeOf(last, url, uid, rows, hash))
  }

  /** The writes the loop over `exps` queues, in list order. */
  function WritesOf(exps: seq<Experiment>, url: string, uid: int, rows: map<Key, Bucket>, hash: string -> Int32): seq<PendingWrite>
  {
    if exps == [] then []
    else
      var last := exps[|exps| - 1];
      WritesOf(exps[..|exps| - 1], url, uid, rows, hash) + WriteFrom(last, uid, OutcomeOf(last, url, uid, rows, hash))
  }

  /** Extending the prefix of the loop by one experiment appends that
      experiment's decision and write. */
  lemma PrefixStep(exps: seq<Experiment>, i: nat, url: string, uid: int, rows: map<Key, Bucket>, hash: string -> Int32)
    requires i < |exps|
    ensures DecisionsOf(exps[..i + 1], url, uid, rows, hash)
      == DecisionsOf(exps[..i], url, uid, rows, hash) + DecisionFrom(exps[i], OutcomeOf(exps[i], url, uid, rows, hash))
    ensures WritesOf(exps[..i + 1], url, uid, rows, hash)
      == WritesOf(exps[..i], url, uid, rows, hash) + WriteFrom(exps[i], uid, OutcomeOf(exps[i], url, uid, rows, hash))
  {
    assert exps[..i + 1][..i] == exps[..i];
  }

  /** `recordAssignment` on a table: insert only when no row has the key. */
  function Record(rows: map<Key, Bucket>, w: PendingWrite): map<Key, Bucket>
  {
    if (w.expId, w.userId) in rows then rows
    else rows[(w.expId, w.userId) := Bucket(w.expId, w.userId, w.varId)]
  }

  /** Running the queued writes in order. */
  function ApplyWrites(rows: map<Key, Bucket>, ws: seq<PendingWrite>): map<Key, Bucket>
    decreases |ws|
  {
    if ws == [] then rows else ApplyWrites(Record(rows, ws[0]), ws[1..])
  }

  /** The experiments a request sees: the cached list while the entry is
      younger than the TTL, the freshly fetched one otherwise. */
  predicate CacheHit(cache: map<int, CacheEntry>, projectId: int, now: int)
  {
    projectId in cache && now - cache[projectId].storedAt < CacheTtl
  }

  function Snapshot(cache: map<int, CacheEntry>, projectId: int, now: int, fetched: seq<Experiment>): seq<Experiment>
  {
    if CacheHit(cache, projectId, now) then cache[projectId].experiments else fetched
  }

  class DecisionService {
    /** The experiment cache. In the source it is a class attribute, shared
        by every instance of the service. */
    var cache: map<int, CacheEntry>
    const bucketRepo: BucketRepository
    const experimentRepo: ExperimentRepository

    constructor (bucketRepo: BucketRepository, experimentRepo: ExperimentRepository)
      ensures this.bucketRepo == bucketRepo && this.experimentRepo == experimentRepo
      ensures cache == map[]
    {
      this.bucketRepo := bucketRepo;
      this.experimentRepo := experimentRepo;
      cache := map[];
    }

    /** `getActiveExperiments`: a fresh cache entry is served without
        touching the repository; otherwise the first 1000 active
        experiments are fetched and stored with the current time. */
    method GetActiveExperiments(projectId: int, now: int) returns (active: seq<Experiment>)
      modifies this`cache
      ensures CacheHit(old(cache), projectId, now) ==>
        active == old(cache)[projectId].experiments && cache == old(cache)
      ensures !CacheHit(old(cache), projectId, now) ==>
        && active == experimentRepo.GetAllActive(CacheRows, 1, projectId)
        && cache == old(cache)[projectId := CacheEntry(active, now)]
    {
      if projectId in cache {
        var entry := cache[projectId];
        if now - entry.storedAt < CacheTtl {
          return entry.experiments;
        }
      }
      active := experimentRepo.GetAllActive(CacheRows, 1, projectId);
      cache := cache[projectId := CacheEntry(active, now)];
    }

    /** `makeDecision`: one decision per targeted experiment that has a
        stored assignment to a current variation or buckets into one, in
        the order of the active list; a write is queued for each fresh
        bucketing and for nothing else. */
    method MakeDecision(url: string, suppliedId: Option<int>, projectId: int, now: int,
                        generatedId: int, hash: string -> Int32)
      returns (response: DecisionResponse, tasks: seq<PendingWrite>)
      requires MinGeneratedId <= generatedId <= MaxGeneratedId
      requires bucketRepo.Valid()
      modifies this`cache
      ensures response.endUserId == ResolveEndUserId(suppliedId, generatedId)
      ensures var active := Snapshot(old(cache), projectId, now, experimentRepo.GetAllActive(CacheRows, 1, projectId));
        && response.decisions == DecisionsOf(active, url, response.endUserId, bucketRepo.rows, hash)
        && tasks == WritesOf(active, url, response.endUserId, bucketRepo.rows, hash)
      ensures CacheHit(old(cache), projectId, now) ==> cache == old(cache)
      ensures !CacheHit(old(cache), projectId, now) ==>
        cache == old(cache)[projectId := CacheEntry(experimentRepo.GetAllActive(CacheRows, 1, projectId), now)]
    {
      var endUserId := if suppliedId.Some? && suppliedId.value != 0 then suppliedId.value else generatedId;
      var activeExperiments := GetActiveExperiments(projectId, now);
      ghost var rows := bucketRepo.rows;
      ghost var cacheAfterFetch := cache;
      var decisions: seq<ExperimentDecision> := [];
      tasks := [];
      var i := 0;
      while i < |activeExperiments|
        invariant 0 <= i <= |activeExperiments|
        invariant decisions == DecisionsOf(activeExperiments[..i], url, endUserId, rows, hash)
        invariant tasks == WritesOf(activeExperiments[..i], url, endUserId, rows, hash)
        invariant cache == cacheAfterFetch
      {
        var exp := activeExperiments[i];
        var decision, task := DecideExperiment(exp, url, endUserId, hash);
        PrefixStep(activeExperiments, i, url, endUserId, rows, hash);
        decisions := decisions + decision;
        tasks := tasks + task;
        i := i + 1;
      }
      assert activeExperiments[..i] == activeExperiments;
      response := DecisionResponse(endUserId, decisions);
    }

    /** The body of the decision loop for one experiment: targeting, then
        the stored assignment, else a fresh bucketing. */
    method DecideExperiment(exp: Experiment, url: string, endUserId: int, hash: string -> Int32)
      returns (decision: seq<ExperimentDecision>, task: seq<PendingWrite>)
      requires bucketRepo.Valid()
      ensures decision == DecisionFrom(exp, OutcomeOf(exp, url, endUserId, bucketRepo.rows, hash))
      ensures task == WriteFrom(exp, endUserId, OutcomeOf(exp, url, endUserId, bucketRepo.rows, hash))
    {
      decision, task := [], [];
      var targeted := CheckTargeting(exp, url);
      if !targeted {
        return;
      }
      var existingBucket := bucketRepo.Get(exp.id, endUserId);
      if existingBucket.Some? {
        // Sticky bucketing: the stored variation, if it still exists.
        var assignedVariation := FindVariation(exp.variations, existingBucket.value.variationId);
        if assignedVariation.Some? {
          decision := [BuildDecision(exp, assignedVariation.value)];
        }
      } else {
        var hashInt := hash(HashKey(endUserId, exp.id));
        var bucketVal := BucketValue(hashInt);
        var chosenVariation := ChooseVariation(exp.variations, bucketVal);
        if chosenVariation.Some? {
          task := [RecordAssignment(exp.id, endUserId, chosenVariation.value.id)];
          decision := [BuildDecision(exp, chosenVariation.value)];
        }
      }
    }

    /** `recordAssignment`: insert the assignment unless one is stored. */
    method RecordAssignmentNow(expId: int, userId: int, varId: int)
      requires bucketRepo.Valid()
      modifies bucketRepo
      ensures bucketRepo.Valid()
      ensures bucketRepo.rows == Record(old(bucketRepo.rows), RecordAssignment(expId, userId, varId))
    {
      var existing := bucketRepo.Get(expId, userId);
      if existing.None? {
        var _ := bucketRepo.Add(Bucket(expId, userId, varId));
      }
    }

    /** The background worker: runs the queued writes in order. */
    method RunPendingWrites(tasks: seq<PendingWrite>)
      requires bucketRepo.Valid()
      modifies bucketRepo
      ensures bucketRepo.Valid()
      ensures bucketRepo.rows == ApplyWrites(old(bucketRepo.rows), tasks)
    {
      var i := 0;
      while i < |tasks|
        invariant 0 <= i <= |tasks|
        invariant bucketRepo.Valid()
        invariant ApplyWrites(bucketRepo.rows, tasks[i..]) == ApplyWrites(old(bucketRepo.rows), tasks)
      {
        var t := tasks[i];
        RecordAssignmentNow(t.expId, t.userId, t.varId);
        assert tasks[i..][1..] == tasks[i + 1..];
        i := i + 1;
      }
    }
  }
}
