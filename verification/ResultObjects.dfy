/**
  The result object of one transaction: the stored snapshot is loaded, its fields are assigned
  one by one, and the object is dumped again. Each method is proved to dump exactly the snapshot
  that `RunResults` specifies.
 */
module ResultObjects {
  import opened Wrappers
  import opened RunModels
  import opened Texts
  import opened RunResults

  class ResultObject {
    var resultStatus: ResultStatus
    var planRevision: nat
    var supersedes: Option<RunId>
    var assistantAnswer: string
    var weatherWindow: Option<Payload>
    var itinerary: Option<Payload>
    var sources: seq<Source>
    var warnings: seq<Warning>
    var weather: Component
    var guide: Component
    var route: Component
    var contextUsage: Option<Usage>

    constructor (r: RunResult)
      ensures Dump() == r
    {
      resultStatus, planRevision, supersedes, assistantAnswer :=
          r.resultStatus, r.planRevision, r.supersedes, r.assistantAnswer;
      weatherWindow, itinerary, sources, warnings := r.weatherWindow, r.itinerary, r.sources, r.warnings;
      weather, guide, route, contextUsage := r.weather, r.guide, r.route, r.contextUsage;
    }

    function Dump(): RunResult
      reads this
    {
      RunResult(resultStatus, planRevision, supersedes, assistantAnswer, weatherWindow, itinerary, sources, warnings,
                weather, guide, route, contextUsage)
    }
  }

  /** `_replace_source`: the newest entry of a key wins and moves to the end. */
  method ReplaceSource(result: ResultObject, source: Source)
    modifies result`sources
    ensures result.sources == ReplacedSource(old(result.sources), source)
  {
    var key := KeyOf(source);
    result.sources := OtherSources(result.sources, key);
    result.sources := result.sources + [source];
    result.sources := LastEntries(result.sources, LEDGER_LIMIT);
  }

  /** `_add_warning`: a warning that is already listed is not repeated. */
  method AddWarning(result: ResultObject, warning: Warning)
    modifies result`warnings
    ensures result.warnings == AddedWarning(old(result.warnings), warning)
  {
    if !exists w | w in result.warnings :: SameWarning(w, warning) {
      result.warnings := result.warnings + [warning];
      result.warnings := LastEntries(result.warnings, LEDGER_LIMIT);
    }
  }

  method ReplaceSources(result: ResultObject, added: seq<Source>)
    modifies result`sources
    ensures result.sources == ReplacedSources(old(result.sources), added)
  {
    ghost var before := result.sources;
    for n := 0 to |added|
      invariant result.sources == ReplacedSources(before, added[..n])
    {
      assert added[..n + 1][..n] == added[..n];
      ReplaceSource(result, added[n]);
    }
    assert added[..|added|] == added;
  }

  method AddWarnings(result: ResultObject, added: seq<Warning>)
    modifies result`warnings
    ensures result.warnings == AddedWarnings(old(result.warnings), added)
  {
    ghost var before := result.warnings;
    for n := 0 to |added|
      invariant result.warnings == AddedWarnings(before, added[..n])
    {
      assert added[..n + 1][..n] == added[..n];
      AddWarning(result, added[n]);
    }
    assert added[..|added|] == added;
  }

  method BuildInitialResult(planRevision: nat, supersedes: Option<RunId>, previous: Option<RunResult>)
    returns (r: RunResult)
    ensures r == Initial(planRevision, supersedes, previous)
  {
    hide Inherited, FreshResult;
    var result := new ResultObject(FreshResult(planRevision, supersedes));
    if previous.Some? && supersedes.Some? {
      result.weatherWindow := previous.value.weatherWindow;
      result.itinerary := previous.value.itinerary;
      result.sources := previous.value.sources;
      result.warnings := previous.value.warnings;
      result.weather := Inherited(previous.value.weather, supersedes.value);
      result.guide := Inherited(previous.value.guide, supersedes.value);
      result.route := Inherited(previous.value.route, supersedes.value);
    }
    r := result.Dump();
  }

  method ApplyContextUsage(current: RunResult, usage: Usage) returns (r: RunResult)
    ensures r == ContextApplied(current, usage)
  {
    var result := new ResultObject(current);
    result.contextUsage := Some(usage);
    r := result.Dump();
  }

  method ApplyWeatherSuccess(result: ResultObject, payload: Payload)
    modifies result
    ensures result.Dump() == WeatherSucceeded(old(result.Dump()), payload)
  {
    hide WeatherSource, ReplacedSource, AddedWarning, Strip, MakeComponent, NoticeWarning;
    result.weatherWindow := Some(payload);
    result.weather := MakeComponent(Ready, "", "");
    if payload.source.Some? {
      ReplaceSource(result, WeatherSource(payload.source.value));
    }
    var notice := Strip(Bounded(payload.notice, 2000));
    if notice != "" {
      AddWarning(result, NoticeWarning(notice));
    }
  }

  method ApplyWeatherFailure(result: ResultObject, payload: Payload)
    modifies result
    ensures result.Dump() == WeatherFailed(old(result.Dump()), payload)
  {
    hide AddedWarning, OptionalBounded, ErrorCodeOf, ErrorMessageOf;
    var errorCode, errorMessage := ErrorCodeOf(payload), ErrorMessageOf(payload, WEATHER_TOOL);
    var inheritedFrom := result.weather.inheritedFrom;
    result.weather :=
      MakeComponent(if result.weatherWindow.Some? then Degraded else Unavailable, errorCode, errorMessage);
    result.weather := result.weather.(inheritedFrom := inheritedFrom);
    AddWarning(result, Warning(errorCode, errorMessage, Error, WeatherScope));
  }

  method ApplyTripSuccess(result: ResultObject, payload: Payload)
    modifies result
    ensures result.Dump() == TripSucceeded(old(result.Dump()), payload)
  {
    hide ReplacedSource, ReplacedSources, AddedWarnings, PageSources, TripWarnings, RawWarnings,
        MentionsDegradedRoute, MakeComponent;
    result.itinerary := Some(payload);
    var rawWarnings := RawWarnings(payload.warnings);
    result.guide := MakeComponent(Ready, "", "");
    var routeDegraded := exists w | w in rawWarnings :: MentionsDegradedRoute(w);
    result.route := MakeComponent(if routeDegraded then Degraded else Ready, "",
                                  if routeDegraded then "路线包含降级数据。" else "");
    ReplaceSources(result, PageSources(payload.pages));
    ReplaceSource(result, ROUTE_SOURCE);
    AddWarnings(result, TripWarnings(rawWarnings));
  }

  method ApplyTripFailure(result: ResultObject, payload: Payload)
    modifies result
    ensures result.Dump() == TripFailed(old(result.Dump()), payload)
  {
    hide AddedWarning, OptionalBounded, ErrorCodeOf, ErrorMessageOf, Contains;
    var errorCode, errorMessage := ErrorCodeOf(payload), ErrorMessageOf(payload, TRIP_TOOL);
    var status := if result.itinerary.Some? then Degraded else Unavailable;
    result.guide := MakeComponent(status, errorCode, errorMessage).(inheritedFrom := result.guide.inheritedFrom);
    result.route := MakeComponent(status, errorCode, errorMessage).(inheritedFrom := result.route.inheritedFrom);
    AddWarning(result, Warning(errorCode, errorMessage, Error,
                               if Contains(errorCode, "ORS") then RouteScope else GuideScope));
  }

  method ApplyToolResult(current: RunResult, tool: string, snapshot: Option<Payload>, succeeded: bool)
    returns (r: RunResult)
    ensures r == ToolApplied(current, tool, snapshot, succeeded)
  {
    hide WeatherSucceeded, WeatherFailed, TripSucceeded, TripFailed;
    var result := new ResultObject(current);
    var payload := if snapshot.Some? then snapshot.value else EMPTY_PAYLOAD;
    if tool == WEATHER_TOOL {
      if succeeded {
        ApplyWeatherSuccess(result, payload);
      } else {
        ApplyWeatherFailure(result, payload);
      }
    } else if tool == TRIP_TOOL {
      if succeeded {
        ApplyTripSuccess(result, payload);
      } else {
        ApplyTripFailure(result, payload);
      }
    }
    result.resultStatus := Partial;
    r := result.Dump();
  }

  method CompleteResult(current: RunResult, answer: Answer) returns (r: RunResult)
    ensures r == Completed(current, answer)
  {
    hide ReplacedSources, AnswerSources, MakeComponent, Strip;
    var result := new ResultObject(current);
    result.assistantAnswer := AnswerText(answer);
    ReplaceSources(result, AnswerSources(answer.references));
    result.weather := Settled(result.weather);
    result.guide := Settled(result.guide);
    result.route := Settled(result.route);
    result.resultStatus :=
      if Strip(result.assistantAnswer) != ""
         && Usable(result.weather.status) && Usable(result.guide.status) && Usable(result.route.status)
      then Complete else Partial;
    r := result.Dump();
  }

  method FailResult(current: RunResult, errorCode: string, errorMessage: string, terminal: bool) returns (r: RunResult)
    ensures r == FailureApplied(current, errorCode, errorMessage, terminal)
  {
    var result := new ResultObject(current);
    var code := Bounded(errorCode, 100);
    var message := Bounded(errorMessage, 2000);
    if terminal {
      result.resultStatus := Failed;
      result.weather := Abandoned(result.weather, code, message);
      result.guide := Abandoned(result.guide, code, message);
      result.route := Abandoned(result.route, code, message);
    }
    AddWarning(result, Warning(code, message, if terminal then Error else Warn, AgentScope));
    r := result.Dump();
  }
}
