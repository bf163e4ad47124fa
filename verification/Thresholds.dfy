/** Thresholds of several levels, and how a result is judged by them
    (`hub/src/model.rs`). Limits and values are real numbers. */
module Thresholds {
  import opened Wrappers

  datatype Metric = Cpu | Memory | Disk | Latency | Tls | FileAge | Loss | Temperature | ClockOffset {
    /** Less is worse. */
    predicate Falls() {
      Tls?
    }

    /** The largest limit. */
    function Max(): real {
      match this
      case Latency => 600000.0
      case Tls => 3650.0
      case FileAge => 87600.0
      case Temperature => 150.0
      case ClockOffset => 86400.0
      case _ => 100.0
    }

    predicate Reaches(value: real, at: real) {
      if Falls() then value <= at else value >= at
    }
  }

  datatype Setting = Off | At(value: real) {
    function Value(): Option<real> {
      match this case Off => None case At(v) => Some(v)
    }
  }

  datatype Limits = Limits(warning: Option<Setting>, down: Option<Setting>)

  predicate InRange(metric: Metric, setting: Option<Setting>) {
    setting.Some? && setting.value.At? ==> 0.0 <= setting.value.value <= metric.Max()
  }

  /** `MetricLimits::validate`. */
  predicate Valid(metric: Metric, limits: Limits) {
    && InRange(metric, limits.warning) && InRange(metric, limits.down)
    && !(&& limits.warning.Some? && limits.warning.value.At? && limits.down.Some? && limits.down.value.At?
         && metric.Reaches(limits.warning.value.value, limits.down.value.value))
  }

  function Fixed(warning: real, down: Option<real>): Limits {
    Limits(Some(At(warning)), Some(match down case None => Off case Some(d) => At(d)))
  }

  /** `Thresholds::built_in`. */
  function BuiltIn(metric: Metric): Limits {
    match metric
    case Cpu => Fixed(95.0, None)
    case Memory => Fixed(90.0, None)
    case Disk => Fixed(90.0, Some(97.0))
    case Latency => Limits(Some(Off), Some(Off))
    case Tls => Fixed(21.0, Some(7.0))
    case FileAge => Fixed(26.0, Some(50.0))
    case Loss => Fixed(50.0, None)
    case Temperature => Fixed(90.0, None)
    case ClockOffset => Fixed(5.0, Some(60.0))
  }

  // ----- Resolving -----------------------------------------------------------

  datatype LevelName = Check | Site | Company | Global | BuiltInLevel

  datatype Level = Level(name: LevelName, limits: Limits)

  /** A limit in force; no value: it is off. */
  datatype Limit = Limit(value: Option<real>, from: LevelName)

  datatype Resolved = Resolved(warning: Limit, down: Limit)

  datatype Side = WarningSide | DownSide

  function Field(limits: Limits, side: Side): Option<Setting> {
    if side.WarningSide? then limits.warning else limits.down
  }

  /** The closure `pick` of `resolve`: the first level that sets the limit. */
  function Pick(metric: Metric, levels: seq<Level>, side: Side): Limit
    decreases |levels|
  {
    if levels == [] then
      match Field(BuiltIn(metric), side)
      case None => Limit(None, BuiltInLevel)
      case Some(setting) => Limit(setting.Value(), BuiltInLevel)
    else
      match Field(levels[0].limits, side)
      case None => Pick(metric, levels[1..], side)
      case Some(setting) => Limit(setting.Value(), levels[0].name)
  }

  /** `ResolvedLimits::resolve`; `levels` from the lowest. */
  function Resolve(metric: Metric, levels: seq<Level>): Resolved {
    Resolved(Pick(metric, levels, WarningSide), Pick(metric, levels, DownSide))
  }

  // ----- Judging -------------------------------------------------------------

  datatype Health = HealthUp | HealthDown

  datatype Status = Up | Warning | Down

  /** A result: what the probe says and the value measured for each metric. */
  datatype Outcome = Outcome(health: Health, values: map<Metric, real>)

  predicate Hits(metric: Metric, value: real, limit: Limit) {
    limit.value.Some? && metric.Reaches(value, limit.value.value)
  }

  /** `Evaluation::of`: the status; down is looked at before warning. */
  function Evaluate(outcome: Outcome, metric: Option<Metric>, limits: Option<Resolved>): Status {
    if outcome.health.HealthDown? then Down
    else if metric.None? || limits.None? then Up
    else if metric.value !in outcome.values then Up
    else
      var value := outcome.values[metric.value];
      if Hits(metric.value, value, limits.value.down) then Down
      else if Hits(metric.value, value, limits.value.warning) then Warning
      else Up
  }

  // ----- Laws ----------------------------------------------------------------

  /** Level `i` decides a limit: it is the lowest that sets it, `|levels|` for
      the built-in limits. */
  ghost predicate Decides(levels: seq<Level>, side: Side, i: nat) {
    && i <= |levels|
    && (forall k :: 0 <= k < i ==> Field(levels[k].limits, side).None?)
    && (i < |levels| ==> Field(levels[i].limits, side).Some?)
  }

  function LimitsAt(metric: Metric, levels: seq<Level>, i: nat): Limits {
    if i < |levels| then levels[i].limits else BuiltIn(metric)
  }

  function NameAt(levels: seq<Level>, i: nat): LevelName {
    if i < |levels| then levels[i].name else BuiltInLevel
  }

  function Decider(levels: seq<Level>, side: Side): nat
    decreases |levels|
  {
    if levels == [] || Field(levels[0].limits, side).Some? then 0 else 1 + Decider(levels[1..], side)
  }

  /** Exactly one level decides each limit: it is off, or at its number, as that
      level says, `off` at a lower level included. */
  lemma {:induction false} OneDecides(metric: Metric, levels: seq<Level>, side: Side)
    ensures Decides(levels, side, Decider(levels, side))
    ensures forall i :: Decides(levels, side, i) ==>
              && Field(LimitsAt(metric, levels, i), side).Some?
              && Pick(metric, levels, side)
                 == Limit(Field(LimitsAt(metric, levels, i), side).value.Value(), NameAt(levels, i))
    decreases |levels|
  {
    if levels != [] {
      hide Field, Decider;
      var rest := levels[1..];
      OneDecides(metric, rest, side);
      DeciderIs(levels, side);
      if Field(levels[0].limits, side).None? {
        forall i: nat ensures i > 0 ==> (Decides(levels, side, i) <==> Decides(rest, side, i - 1)) {
          if i > 0 {
            DecidesLater(levels, side, i);
          }
        }
      }
    }
  }

  lemma DeciderIs(levels: seq<Level>, side: Side)
    requires levels != []
    ensures Decider(levels, side) ==
              if Field(levels[0].limits, side).Some? then 0 else 1 + Decider(levels[1..], side)
  {
  }

  lemma DecidesLater(levels: seq<Level>, side: Side, i: nat)
    requires levels != [] && Field(levels[0].limits, side).None? && i > 0
    ensures Decides(levels, side, i) <==> Decides(levels[1..], side, i - 1)
  {
    hide Field;
    var rest := levels[1..];
    assert forall k :: 0 < k < |levels| ==> levels[k] == rest[k - 1];
    assert forall k :: 0 <= k < |rest| ==> rest[k] == levels[k + 1];
  }

  /** `b` is further in the metric's bad direction. */
  predicate Worse(metric: Metric, a: real, b: real) {
    if metric.Falls() then b <= a else a <= b
  }

  function Severity(status: Status): nat {
    match status case Up => 0 case Warning => 1 case Down => 2
  }

  function Measured(metric: Metric, value: real): Outcome {
    Outcome(HealthUp, map[metric := value])
  }

  function Judged(metric: Metric, levels: seq<Level>, value: real): Status {
    Evaluate(Measured(metric, value), Some(metric), Some(Resolve(metric, levels)))
  }

  /** A value moved in the bad direction is never judged better, whatever the
      levels set, turn off or leave to others. */
  lemma JudgedMonotonically(metric: Metric, levels: seq<Level>, a: real, b: real)
    requires Worse(metric, a, b)
    ensures Severity(Judged(metric, levels, a)) <= Severity(Judged(metric, levels, b))
  {
    hide Pick;
  }

  /** The status in terms of the levels that decide. */
  lemma JudgedByDeciders(metric: Metric, levels: seq<Level>, value: real, w: nat, d: nat)
    requires Decides(levels, WarningSide, w) && Decides(levels, DownSide, d)
    ensures
      var warning, down := LimitsAt(metric, levels, w).warning.value, LimitsAt(metric, levels, d).down.value;
      Judged(metric, levels, value) ==
      if down.At? && metric.Reaches(value, down.value) then Down
      else if warning.At? && metric.Reaches(value, warning.value) then Warning
      else Up
  {
    OneDecides(metric, levels, WarningSide);
    OneDecides(metric, levels, DownSide);
    hide Pick, Decides;
    assert Field(LimitsAt(metric, levels, w), WarningSide).Some?;
    assert Field(LimitsAt(metric, levels, d), DownSide).Some?;
  }

  /** Some value is judged a warning exactly when the warning limit is on and isn't
      itself down: what `validate` asks of one level, but of the two levels that
      decide. */
  lemma WarningIsPossible(metric: Metric, levels: seq<Level>, w: nat, d: nat)
    requires Decides(levels, WarningSide, w) && Decides(levels, DownSide, d)
    ensures
      LimitsAt(metric, levels, w).warning.Some? && LimitsAt(metric, levels, d).down.Some?
    ensures
      var warning, down := LimitsAt(metric, levels, w).warning.value, LimitsAt(metric, levels, d).down.value;
      (exists value :: Judged(metric, levels, value) == Warning) <==>
      warning.At? && !(down.At? && metric.Reaches(warning.value, down.value))
  {
    OneDecides(metric, levels, WarningSide);
    OneDecides(metric, levels, DownSide);
    hide Pick, Judged;
    var warning, down := Field(LimitsAt(metric, levels, w), WarningSide).value,
                         Field(LimitsAt(metric, levels, d), DownSide).value;
    forall value: real
      ensures Judged(metric, levels, value) == Warning <==>
              warning.At? && metric.Reaches(value, warning.value)
              && !(down.At? && metric.Reaches(value, down.value))
    {
      JudgedByDeciders(metric, levels, value, w, d);
    }
    if warning.At? {
      assert metric.Reaches(warning.value, warning.value);
      assert Judged(metric, levels, warning.value) == Warning <==>
             !(down.At? && metric.Reaches(warning.value, down.value));
    }
  }

  /** Where both limits come from one level that `validate` accepts, a value that
      reaches down reaches warning, and a warning comes before. */
  lemma WarningComesFirst(metric: Metric, levels: seq<Level>, i: nat, value: real)
    requires Decides(levels, WarningSide, i) && Decides(levels, DownSide, i)
    requires Valid(metric, LimitsAt(metric, levels, i))
    ensures
      var limits := Resolve(metric, levels);
      && limits.warning.from == limits.down.from
      && (limits.warning.value.Some? && Hits(metric, value, limits.down) ==> Hits(metric, value, limits.warning))
      && (limits.warning.value.Some? ==> exists v :: Judged(metric, levels, v) == Warning)
  {
    OneDecides(metric, levels, WarningSide);
    OneDecides(metric, levels, DownSide);
    WarningIsPossible(metric, levels, i, i);
    hide Pick, Judged, Decides;
  }

  /** The built-in limits pass `validate`: with no level at all, every metric with
      a warning limit warns before it is down. */
  lemma BuiltInIsValid(metric: Metric)
    ensures Valid(metric, BuiltIn(metric)) && BuiltIn(metric).warning.Some? && BuiltIn(metric).down.Some?
    ensures Decides([], WarningSide, 0) && Decides([], DownSide, 0)
  {
  }

  /** Two levels, each of them valid, can leave no room for a warning: a check
      that sets only its down limit, under the built-in warning. */
  lemma LevelsMayHideWarnings()
    ensures
      var levels := [Level(Check, Limits(None, Some(At(80.0))))];
      && Valid(Cpu, levels[0].limits) && Valid(Cpu, BuiltIn(Cpu))
      && forall value :: Judged(Cpu, levels, value) != Warning
  {
    var levels := [Level(Check, Limits(None, Some(At(80.0))))];
    assert Decides(levels, WarningSide, 1) && Decides(levels, DownSide, 0);
    WarningIsPossible(Cpu, levels, 1, 0);
  }

  // ----- Any result ----------------------------------------------------------

  /** The metric of a check is given with limits and has a value. */
  predicate IsMeasured(outcome: Outcome, metric: Option<Metric>, limits: Option<Resolved>) {
    metric.Some? && limits.Some? && metric.value in outcome.values
  }

  predicate ReachesLimit(metric: Metric, value: real, limit: Option<real>) {
    limit.Some? && metric.Reaches(value, limit.value)
  }

  /** A result is down exactly when the probe says so, or its value is measured and
      reaches the down limit; a warning exactly when it isn't down, and its value is
      measured and reaches the warning limit. */
  lemma StatusExactly(outcome: Outcome, metric: Option<Metric>, limits: Option<Resolved>)
    ensures Evaluate(outcome, metric, limits) == Down <==>
              || outcome.health == HealthDown
              || (IsMeasured(outcome, metric, limits)
                  && ReachesLimit(metric.value, outcome.values[metric.value], limits.value.down.value))
    ensures Evaluate(outcome, metric, limits) == Warning <==>
              && outcome.health == HealthUp && IsMeasured(outcome, metric, limits)
              && !ReachesLimit(metric.value, outcome.values[metric.value], limits.value.down.value)
              && ReachesLimit(metric.value, outcome.values[metric.value], limits.value.warning.value)
  {
  }

  /** `b` is no better a result than `a`: its health is no better, and what `a`
      measured it measured no better. */
  ghost predicate NoBetter(a: Outcome, b: Outcome, metric: Metric) {
    && (a.health == HealthDown ==> b.health == HealthDown)
    && (metric in a.values ==> metric in b.values && Worse(metric, a.values[metric], b.values[metric]))
  }

  /** A result that is no better is never judged better. */
  lemma NoBetterIsNoBetter(a: Outcome, b: Outcome, metric: Metric, limits: Option<Resolved>)
    requires NoBetter(a, b, metric)
    ensures Severity(Evaluate(a, Some(metric), limits)) <= Severity(Evaluate(b, Some(metric), limits))
  {
  }

  /** A limit is reached at its value: from above for the days that a certificate
      has left, from below for all else. */
  lemma ReachedAt(metric: Metric, value: real, at: real)
    ensures metric.Reaches(value, at) <==> if metric == Tls then value <= at else at <= value
  {
  }

  // ----- The built-in limits -------------------------------------------------

  /** The status of a value of each metric when no level sets anything. */
  lemma JudgedByBuiltIn(metric: Metric, value: real)
    ensures Judged(metric, [], value) ==
              match metric
              case Cpu => if value >= 95.0 then Warning else Up
              case Memory => if value >= 90.0 then Warning else Up
              case Disk => if value >= 97.0 then Down else if value >= 90.0 then Warning else Up
              case Latency => Up
              case Tls => if value <= 7.0 then Down else if value <= 21.0 then Warning else Up
              case FileAge => if value >= 50.0 then Down else if value >= 26.0 then Warning else Up
              case Loss => if value >= 50.0 then Warning else Up
              case Temperature => if value >= 90.0 then Warning else Up
              case ClockOffset => if value >= 60.0 then Down else if value >= 5.0 then Warning else Up
  {
  }

  /** The largest limit that is accepted for each metric; 0 is the least for all. */
  lemma AcceptedExactly(at: real)
    ensures
      forall metric, limits :: limits == Limits(Some(At(at)), None) || limits == Limits(None, Some(At(at))) ==>
        (Valid(metric, limits) <==>
          0.0 <= at <=
            match metric
            case Latency => 600000.0
            case Tls => 3650.0
            case FileAge => 87600.0
            case Temperature => 150.0
            case ClockOffset => 86400.0
            case _ => 100.0)
  {
  }

  /** Two limits are accepted exactly when each is, and the warning comes strictly
      before: above for the days that a certificate has left, below for all else. */
  lemma BothAccepted(metric: Metric, warning: real, down: real)
    ensures Valid(metric, Limits(Some(At(warning)), Some(At(down)))) <==>
              && Valid(metric, Limits(Some(At(warning)), None)) && Valid(metric, Limits(None, Some(At(down))))
              && if metric == Tls then down < warning else warning < down
  {
  }
}
