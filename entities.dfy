/** The records the core reads and writes: experiments with their
    conditions, variations and metrics. Each is an immutable value here;
    where the source assigns to a field of a loaded row, the model
    replaces the row by an updated copy. */
module Entities {
  import opened Common

  /** URL-matching operators of a targeting condition. */
  datatype Operator = IS | CONTAIN | IS_NOT | NOT_CONTAIN

  /** How an experiment combines its conditions. */
  datatype ConditionType = ALL | ANY

  /** Lifecycle status of an experiment. */
  datatype ExperimentStatus = DRAFT | ACTIVE | PAUSED | ARCHIVED

  datatype Condition = Condition(id: int, experimentId: int, urls: seq<string>, operator: Operator)

  datatype Metric = Metric(
    id: int,
    experimentId: int,
    title: Option<string>,
    custom: bool,
    selector: Option<string>,
    description: Option<string>,
    triggeredOnLive: int,
    triggeredOnQa: int)

  /** `traffic` is an integer percentage. */
  datatype Variation = Variation(
    id: int,
    experimentId: int,
    title: string,
    traffic: int,
    js: Option<string>,
    css: Option<string>)

  datatype Experiment = Experiment(
    id: int,
    title: string,
    projectId: int,
    experimentType: string,
    status: ExperimentStatus,
    url: Option<string>,
    description: Option<string>,
    triggerType: string,
    conditionType: ConditionType,
    js: Option<string>,
    css: Option<string>,
    conditions: seq<Condition>,
    variations: seq<Variation>,
    metrics: seq<Metric>)

  /** Sum of the traffic percentages of `vs`. */
  function TrafficTotal(vs: seq<Variation>): int
  {
    if vs == [] then 0 else TrafficTotal(vs[..|vs| - 1]) + vs[|vs| - 1].traffic
  }

  /** Primary keys: no two variations share an id. */
  predicate DistinctVariationIds(vs: seq<Variation>)
  {
    forall i, j :: 0 <= i < j < |vs| ==> vs[i].id != vs[j].id
  }
}
