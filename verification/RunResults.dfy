/**
  The versioned result snapshot of a Run: which parts of a plan are available, where they come
  from, and how tool calls, completion and failure change them.

  The functions say what a snapshot becomes; the methods of `ResultObjects` assign the fields one
  by one, as the program does, and are proved to compute the same snapshots.
 */
module RunResults {
  import opened Wrappers
  import opened RunModels
  import opened Texts

  datatype ResultStatus = Complete | Partial | Failed

  datatype ComponentStatus = Pending | Ready | Degraded | Unavailable

  datatype Component = Component(status: ComponentStatus, errorCode: Option<string>, message: Option<string>,
                                 inheritedFrom: Option<RunId>)

  datatype Source = Source(provider: string, title: string, url: Option<string>, purpose: string)

  datatype Severity = Info | Warn | Error

  datatype Scope = WeatherScope | GuideScope | RouteScope | AgentScope

  datatype Warning = Warning(code: string, message: string, severity: Severity, scope: Scope)

  /** A link in a tool's answer; an empty text stands for a missing field. */
  datatype Reference = Reference(provider: string, title: string, url: string, purpose: string)

  /** A tool's allow-listed answer. `body` stands for the fields that are only stored. Entries of
      `pages` that are no mappings are `None`. */
  datatype Payload = Payload(body: string, errorCode: string, message: string, source: Option<Reference>,
                             notice: string, warnings: seq<string>, pages: seq<Option<Reference>>)

  /** The agent's final answer, with its two spellings of the text and of the references. */
  datatype Answer = Answer(assistantAnswer: string, answer: string, references: seq<Option<Reference>>)

  type Usage = seq<int>

  datatype RunResult = RunResult(
    resultStatus: ResultStatus,
    planRevision: nat,
    supersedes: Option<RunId>,
    assistantAnswer: string,
    weatherWindow: Option<Payload>,
    itinerary: Option<Payload>,
    sources: seq<Source>,
    warnings: seq<Warning>,
    weather: Component,
    guide: Component,
    route: Component,
    contextUsage: Option<Usage>)

  const EMPTY_PAYLOAD := Payload("", "", "", None, "", [], [])
  const PENDING_COMPONENT := Component(Pending, None, None, None)
  const LEDGER_LIMIT: nat := 100
  const WEATHER_TOOL := "find_best_weather_window"
  const TRIP_TOOL := "plan_wikivoyage_trip"

  // ---------------------------------------------------------------- small pieces

  function OptionalBounded(s: string, limit: nat): (r: Option<string>)
    ensures r.Some? ==> 0 < |r.value| <= limit
  {
    var text := Strip(Bounded(s, limit));
    if text == "" then None else Some(text)
  }

  function MakeComponent(status: ComponentStatus, errorCode: string, message: string): Component {
    Component(status, OptionalBounded(errorCode, 100), OptionalBounded(message, 1000), None)
  }

  type SourceKey = (string, string, string)

  function KeyOf(source: Source): SourceKey {
    (Lower(source.provider), if source.url.Some? then source.url.value else "", source.purpose)
  }

  /** The entries with another key than `key`, in order. */
  function OtherSources(sources: seq<Source>, key: SourceKey): (r: seq<Source>)
    ensures |r| <= |sources|
  {
    if sources == [] then []
    else
      var last := sources[|sources| - 1];
      OtherSources(sources[..|sources| - 1], key) + if KeyOf(last) == key then [] else [last]
  }

  function ReplacedSource(sources: seq<Source>, source: Source): seq<Source> {
    LastEntries(OtherSources(sources, KeyOf(source)) + [source], LEDGER_LIMIT)
  }

  predicate SameWarning(a: Warning, b: Warning) {
    a.code == b.code && a.message == b.message && a.scope == b.scope
  }

  function AddedWarning(warnings: seq<Warning>, warning: Warning): seq<Warning> {
    if exists w | w in warnings :: SameWarning(w, warning) then warnings
    else LastEntries(warnings + [warning], LEDGER_LIMIT)
  }

  function ReplacedSources(sources: seq<Source>, added: seq<Source>): seq<Source> {
    if added == [] then sources
    else ReplacedSource(ReplacedSources(sources, added[..|added| - 1]), added[|added| - 1])
  }

  function AddedWarnings(warnings: seq<Warning>, added: seq<Warning>): seq<Warning> {
    if added == [] then warnings
    else AddedWarning(AddedWarnings(warnings, added[..|added| - 1]), added[|added| - 1])
  }

  // ---------------------------------------------------------------- parts of a result

  datatype Part = WeatherPart | GuidePart | RoutePart

  function ComponentOf(r: RunResult, part: Part): Component {
    match part
    case WeatherPart => r.weather
    case GuidePart => r.guide
    case RoutePart => r.route
  }

  /** Guide and route are two views of the same stored itinerary. */
  function PayloadOf(r: RunResult, part: Part): Option<Payload> {
    if part == WeatherPart then r.weatherWindow else r.itinerary
  }

  function ToolOf(part: Part): string {
    if part == WeatherPart then WEATHER_TOOL else TRIP_TOOL
  }

  predicate Usable(status: ComponentStatus) {
    status == Ready || status == Degraded
  }

  /** A part is usable exactly when its payload is stored, and only stored payloads are inherited. */
  ghost predicate PartsAgree(r: RunResult) {
    forall part: Part ::
      && (Usable(ComponentOf(r, part).status) <==> PayloadOf(r, part).Some?)
      && (ComponentOf(r, part).inheritedFrom.Some? ==> PayloadOf(r, part).Some?)
  }

  predicate ShortComponent(c: Component) {
    && (c.errorCode.Some? ==> |c.errorCode.value| <= 100)
    && (c.message.Some? ==> |c.message.value| <= 1000)
  }

  predicate ShortSource(source: Source) {
    && |source.provider| <= 100 && |source.title| <= 500 && |source.purpose| <= 100
    && (source.url.Some? ==> |source.url.value| <= 2000)
  }

  predicate ShortWarning(warning: Warning) {
    |warning.code| <= 100 && |warning.message| <= 2000
  }

  /** No two sources share provider, address and purpose. */
  ghost predicate UniqueSources(sources: seq<Source>) {
    forall i, j | 0 <= i < j < |sources| :: KeyOf(sources[i]) != KeyOf(sources[j])
  }

  /** What re-validation of a stored snapshot demands: every length limit of the schema. */
  ghost predicate SchemaValid(r: RunResult) {
    && r.planRevision >= 1
    && ShortSources(r.sources) && ShortWarnings(r.warnings)
    && (forall part: Part :: ShortComponent(ComponentOf(r, part)))
  }

  /** What every stored snapshot satisfies. */
  ghost predicate Sound(r: RunResult) {
    PartsAgree(r) && SchemaValid(r) && UniqueSources(r.sources)
  }

  // ---------------------------------------------------------------- what a snapshot becomes

  /** Reading a snapshot back for a Run in a known status. */
  function Coerced(r: RunResult, status: RunStatus): RunResult {
    if status == FAILED || status == CANCELLED then r.(resultStatus := Failed) else r
  }

  const INHERITED_MESSAGE := "沿用上一版结果，等待本次 Run 确认或更新。"

  /** An inherited part names the Run it was taken from, whatever that Run itself had inherited. */
  function Inherited(c: Component, from: RunId): Component {
    if Usable(c.status) then c.(inheritedFrom := Some(from), message := Some(INHERITED_MESSAGE)) else c
  }

  function FreshResult(planRevision: nat, supersedes: Option<RunId>): RunResult {
    RunResult(Partial, planRevision, supersedes, "", None, None, [], [],
              PENDING_COMPONENT, PENDING_COMPONENT, PENDING_COMPONENT, None)
  }

  /** `build_initial_result`: `previous` is the snapshot of the Run named by `supersedes`. */
  function Initial(planRevision: nat, supersedes: Option<RunId>, previous: Option<RunResult>): RunResult {
    var r := FreshResult(planRevision, supersedes);
    if previous.Some? && supersedes.Some? then
      var from := supersedes.value;
      r.(weatherWindow := previous.value.weatherWindow,
         itinerary := previous.value.itinerary,
         sources := previous.value.sources,
         warnings := previous.value.warnings,
         weather := Inherited(previous.value.weather, from),
         guide := Inherited(previous.value.guide, from),
         route := Inherited(previous.value.route, from))
    else r
  }

  function ContextApplied(r: RunResult, usage: Usage): RunResult {
    r.(contextUsage := Some(usage))
  }

  function ErrorCodeOf(payload: Payload): (r: string)
    ensures |r| <= 100
  {
    Bounded(OrElse(payload.errorCode, "TOOL_EXECUTION_FAILED"), 100)
  }

  function ErrorMessageOf(payload: Payload, tool: string): (r: string)
    ensures |r| <= 2000
  {
    Bounded(OrElse(payload.message, tool + " 执行失败。"), 2000)
  }

  function WeatherSource(source: Reference): (r: Source)
    ensures ShortSource(r)
  {
    Source(Bounded(OrElse(source.provider, "Open-Meteo"), 100), "近期天气预报", OptionalBounded(source.url, 2000), "weather")
  }

  function NoticeWarning(notice: string): Warning {
    Warning("WEATHER_FORECAST_NOTICE", notice, Info, WeatherScope)
  }

  function WeatherSucceeded(r: RunResult, payload: Payload): RunResult {
    var notice := Strip(Bounded(payload.notice, 2000));
    r.(weatherWindow := Some(payload),
       weather := MakeComponent(Ready, "", ""),
       sources := if payload.source.Some? then ReplacedSource(r.sources, WeatherSource(payload.source.value))
           else r.sources,
       warnings := if notice != "" then AddedWarning(r.warnings, NoticeWarning(notice)) else r.warnings)
  }

  /** A failed tool leaves a stored payload in place, degraded, with its provenance. */
  function ToolFailedPart(c: Component, stored: bool, payload: Payload, tool: string): Component {
    MakeComponent(if stored then Degraded else Unavailable, ErrorCodeOf(payload), ErrorMessageOf(payload, tool))
      .(inheritedFrom := c.inheritedFrom)
  }

  function WeatherFailed(r: RunResult, payload: Payload): RunResult {
    r.(weather := ToolFailedPart(r.weather, r.weatherWindow.Some?, payload, WEATHER_TOOL),
       warnings := AddedWarning(r.warnings,
         Warning(ErrorCodeOf(payload), ErrorMessageOf(payload, WEATHER_TOOL), Error, WeatherScope)))
  }

  /** The warnings of a trip answer, cut to length and stripped, blank ones dropped. */
  function RawWarnings(warnings: seq<string>): (r: seq<string>)
    ensures forall x | x in r :: |x| <= 2000
  {
    if warnings == [] then []
    else
      var last := warnings[|warnings| - 1];
      RawWarnings(warnings[..|warnings| - 1]) + if Strip(last) != "" then [Strip(Bounded(last, 2000))] else []
  }

  predicate MentionsDegradedRoute(warning: string) {
    var lowered := Lower(warning);
    || Contains(lowered, "ors") || Contains(lowered, "矩阵") || Contains(lowered, "geocoder")
    || Contains(lowered, "降级") || Contains(lowered, "替代")
  }

  /** Everything that does not name the route is filed under the guide. */
  function WarningScope(message: string): Scope {
    var lowered := Lower(message);
    if || Contains(lowered, "ors") || Contains(lowered, "路线") || Contains(lowered, "矩阵")
       || Contains(lowered, "geocoder") || Contains(lowered, "交通")
    then RouteScope else GuideScope
  }

  function GuideSource(page: Reference): (r: Source)
    ensures ShortSource(r)
  {
    Source("Wikivoyage", Bounded(OrElse(page.title, "Wikivoyage 攻略"), 500), OptionalBounded(page.url, 2000), "guide")
  }

  function PageSources(pages: seq<Option<Reference>>): (r: seq<Source>)
    ensures forall x | x in r :: ShortSource(x)
  {
    if pages == [] then []
    else
      var last := pages[|pages| - 1];
      PageSources(pages[..|pages| - 1]) + if last.None? then [] else [GuideSource(last.value)]
  }

  const ROUTE_SOURCE := Source("OpenRouteService", "路线与交通矩阵", Some("https://openrouteservice.org/"), "route")

  function TripWarnings(raw: seq<string>): (r: seq<Warning>)
    requires forall x | x in raw :: |x| <= 2000
    ensures forall x | x in r :: ShortWarning(x)
  {
    if raw == [] then []
    else
      var last := raw[|raw| - 1];
      TripWarnings(raw[..|raw| - 1]) + [Warning("TOOL_WARNING", last, Warn, WarningScope(last))]
  }

  function TripSucceeded(r: RunResult, payload: Payload): RunResult {
    var raw := RawWarnings(payload.warnings);
    var routeDegraded := exists w | w in raw :: MentionsDegradedRoute(w);
    r.(itinerary := Some(payload),
       guide := MakeComponent(Ready, "", ""),
       route := MakeComponent(if routeDegraded then Degraded else Ready, "", if routeDegraded then "路线包含降级数据。" else ""),
       sources := ReplacedSource(ReplacedSources(r.sources, PageSources(payload.pages)), ROUTE_SOURCE),
       warnings := AddedWarnings(r.warnings, TripWarnings(raw)))
  }

  function TripFailed(r: RunResult, payload: Payload): RunResult {
    r.(guide := ToolFailedPart(r.guide, r.itinerary.Some?, payload, TRIP_TOOL),
       route := ToolFailedPart(r.route, r.itinerary.Some?, payload, TRIP_TOOL),
       warnings := AddedWarning(r.warnings,
         Warning(ErrorCodeOf(payload), ErrorMessageOf(payload, TRIP_TOOL), Error,
                 if Contains(ErrorCodeOf(payload), "ORS") then RouteScope else GuideScope)))
  }

  /** `apply_tool_result`: unknown tools change nothing but the result status. */
  function ToolApplied(r: RunResult, tool: string, snapshot: Option<Payload>, succeeded: bool): RunResult {
    var payload := if snapshot.Some? then snapshot.value else EMPTY_PAYLOAD;
    var applied :=
      if tool == WEATHER_TOOL then if succeeded then WeatherSucceeded(r, payload) else WeatherFailed(r, payload)
      else if tool == TRIP_TOOL then if succeeded then TripSucceeded(r, payload) else TripFailed(r, payload)
      else r;
    applied.(resultStatus := Partial)
  }

  function ReferenceSource(reference: Reference): (r: Source)
    ensures ShortSource(r)
  {
    Source(Bounded(OrElse(reference.provider, "Agent reference"), 100),
           Bounded(OrElse(reference.title, "参考来源"), 500),
           OptionalBounded(reference.url, 2000), Bounded(OrElse(reference.purpose, "guide"), 100))
  }

  function AnswerSources(references: seq<Option<Reference>>): (r: seq<Source>)
    ensures forall x | x in r :: ShortSource(x)
  {
    if references == [] then []
    else
      var last := references[|references| - 1];
      AnswerSources(references[..|references| - 1]) + if last.None? then [] else [ReferenceSource(last.value)]
  }

  function AnswerText(answer: Answer): string {
    OrElse(answer.assistantAnswer, answer.answer)
  }

  function Settled(c: Component): Component {
    if c.status == Pending then MakeComponent(Unavailable, "", "本次 Run 未生成该组件。") else c
  }

  function Completed(r: RunResult, answer: Answer): RunResult {
    var c := r.(assistantAnswer := AnswerText(answer),
                sources := ReplacedSources(r.sources, AnswerSources(answer.references)),
                weather := Settled(r.weather), guide := Settled(r.guide), route := Settled(r.route));
    c.(resultStatus :=
         if Strip(c.assistantAnswer) != "" && Usable(c.weather.status) && Usable(c.guide.status)
             && Usable(c.route.status)
         then Complete else Partial)
  }

  const STALE_MESSAGE := "本次 Run 未完成，当前展示内容沿用上一成功版本。"

  /** A part when its Run ends without success. */
  function Abandoned(c: Component, errorCode: string, message: string): Component {
    if c.status == Pending then MakeComponent(Unavailable, errorCode, message)
    else if c.inheritedFrom.Some?
        then c.(status := Degraded, errorCode := Some(errorCode), message := Some(STALE_MESSAGE))
    else c
  }

  function FailureApplied(r: RunResult, errorCode: string, errorMessage: string, terminal: bool): RunResult {
    var code := Bounded(errorCode, 100);
    var message := Bounded(errorMessage, 2000);
    var f := if terminal then
               r.(resultStatus := Failed, weather := Abandoned(r.weather, code, message),
                  guide := Abandoned(r.guide, code, message), route := Abandoned(r.route, code, message))
             else r;
    f.(warnings := AddedWarning(r.warnings, Warning(code, message, if terminal then Error else Warn, AgentScope)))
  }

  // ---------------------------------------------------------------- the bounded ledger of sources

  function KeepLatest(sources: seq<Source>, source: Source): seq<Source> {
    OtherSources(sources, KeyOf(source)) + [source]
  }

  /** The ledger as it would be without the limit. */
  function KeptLatest(sources: seq<Source>, added: seq<Source>): seq<Source> {
    if added == [] then sources
    else KeepLatest(KeptLatest(sources, added[..|added| - 1]), added[|added| - 1])
  }

  lemma {:induction false} OtherSourcesSplit(a: seq<Source>, b: seq<Source>, key: SourceKey)
    ensures OtherSources(a + b, key) == OtherSources(a, key) + OtherSources(b, key)
  {
    if b == [] {
      assert a + b == a;
    } else {
      assert (a + b)[..|a + b| - 1] == a + b[..|b| - 1];
      OtherSourcesSplit(a, b[..|b| - 1], key);
    }
  }

  lemma {:induction false} OtherSourcesMembers(sources: seq<Source>, key: SourceKey, source: Source)
    ensures source in OtherSources(sources, key) <==> source in sources && KeyOf(source) != key
  {
    hide KeyOf;
    if sources != [] {
      OtherSourcesMembers(sources[..|sources| - 1], key, source);
      assert sources == sources[..|sources| - 1] + [sources[|sources| - 1]];
    }
  }

  lemma {:induction false} NothingToDrop(sources: seq<Source>, key: SourceKey)
    requires forall source | source in sources :: KeyOf(source) != key
    ensures OtherSources(sources, key) == sources
  {
    hide KeyOf;
    if sources != [] {
      NothingToDrop(sources[..|sources| - 1], key);
      assert sources[|sources| - 1] in sources;
    }
  }

  /** At most one entry has a given key. */
  lemma {:induction false} OneIsDropped(sources: seq<Source>, key: SourceKey)
    requires UniqueSources(sources)
    ensures |OtherSources(sources, key)| >= |sources| - 1
  {
    hide KeyOf;
    if sources != [] {
      var init, last := sources[..|sources| - 1], sources[|sources| - 1];
      if KeyOf(last) == key {
        forall source | source in init ensures KeyOf(source) != key {
          var i :| 0 <= i < |init| && init[i] == source;
          assert KeyOf(sources[i]) != KeyOf(sources[|sources| - 1]);
        }
        NothingToDrop(init, key);
      } else {
        OneIsDropped(init, key);
      }
    }
  }

  lemma {:induction false} OthersStayUnique(sources: seq<Source>, key: SourceKey)
    requires UniqueSources(sources)
    ensures UniqueSources(OtherSources(sources, key))
  {
    hide KeyOf;
    if sources != [] {
      var init, last := sources[..|sources| - 1], sources[|sources| - 1];
      OthersStayUnique(init, key);
      var kept := OtherSources(init, key);
      forall i | 0 <= i < |kept| ensures KeyOf(kept[i]) != KeyOf(last) {
        OtherSourcesMembers(init, key, kept[i]);
        var j :| 0 <= j < |init| && init[j] == kept[i];
        assert KeyOf(sources[j]) != KeyOf(sources[|sources| - 1]);
      }
    }
  }

  /** Dropping the oldest entries first or last makes no difference, because keys are unique. */
  lemma TailOfKeepLatest(sources: seq<Source>, source: Source, n: nat)
    requires UniqueSources(sources) && n >= 1
    ensures LastEntries(KeepLatest(LastEntries(sources, n), source), n) == LastEntries(KeepLatest(sources, source), n)
  {
    hide KeyOf, OtherSources;
    if |sources| > n {
      var head, tail := sources[..|sources| - n], sources[|sources| - n..];
      assert sources == head + tail;
      OtherSourcesSplit(head, tail, KeyOf(source));
      OneIsDropped(tail, KeyOf(source));
      LastOfSum(OtherSources(head, KeyOf(source)), OtherSources(tail, KeyOf(source)) + [source], n);
      assert KeepLatest(sources, source)
          == OtherSources(head, KeyOf(source)) + (OtherSources(tail, KeyOf(source)) + [source]);
    }
  }

  lemma LastOfSum<T>(a: seq<T>, b: seq<T>, n: nat)
    requires |b| >= n
    ensures LastEntries(a + b, n) == LastEntries(b, n)
  {
  }

  lemma KeepLatestUnique(sources: seq<Source>, source: Source)
    requires UniqueSources(sources)
    ensures UniqueSources(KeepLatest(sources, source))
  {
    hide KeyOf, OtherSources;
    OthersStayUnique(sources, KeyOf(source));
    var kept := OtherSources(sources, KeyOf(source));
    forall i | 0 <= i < |kept| ensures KeyOf(kept[i]) != KeyOf(source) {
      OtherSourcesMembers(sources, KeyOf(source), kept[i]);
    }
  }

  lemma TailUnique(sources: seq<Source>, n: nat)
    requires UniqueSources(sources)
    ensures UniqueSources(LastEntries(sources, n))
  {
    hide KeyOf;
  }

  /** The stored ledger is always the last hundred entries of the unlimited keep-latest list. */
  lemma {:induction false} LedgerIsTail(sources: seq<Source>, added: seq<Source>)
    requires UniqueSources(sources)
    ensures UniqueSources(KeptLatest(sources, added))
    ensures ReplacedSources(LastEntries(sources, LEDGER_LIMIT), added)
        == LastEntries(KeptLatest(sources, added), LEDGER_LIMIT)
  {
    hide KeyOf, UniqueSources, LastEntries, OtherSources;
    if added != [] {
      var init := added[..|added| - 1];
      LedgerIsTail(sources, init);
      KeepLatestUnique(KeptLatest(sources, init), added[|added| - 1]);
      TailOfKeepLatest(KeptLatest(sources, init), added[|added| - 1], LEDGER_LIMIT);
    }
  }

  // ---------------------------------------------------------------- every snapshot is sound

  predicate ShortSources(sources: seq<Source>) {
    |sources| <= LEDGER_LIMIT && forall source | source in sources :: ShortSource(source)
  }

  predicate ShortWarnings(warnings: seq<Warning>) {
    |warnings| <= LEDGER_LIMIT && forall warning | warning in warnings :: ShortWarning(warning)
  }

  lemma ReplacedSourceSound(sources: seq<Source>, source: Source)
    requires ShortSources(sources) && UniqueSources(sources) && ShortSource(source)
    ensures ShortSources(ReplacedSource(sources, source)) && UniqueSources(ReplacedSource(sources, source))
  {
    hide KeyOf, ShortSource, UniqueSources, OtherSources;
    forall x ensures x in OtherSources(sources, KeyOf(source)) ==> x in sources {
      OtherSourcesMembers(sources, KeyOf(source), x);
    }
    KeepLatestUnique(sources, source);
    TailUnique(KeepLatest(sources, source), LEDGER_LIMIT);
  }

  lemma {:induction false} ReplacedSourcesSound(sources: seq<Source>, added: seq<Source>)
    requires ShortSources(sources) && UniqueSources(sources)
    requires forall x | x in added :: ShortSource(x)
    ensures ShortSources(ReplacedSources(sources, added)) && UniqueSources(ReplacedSources(sources, added))
  {
    hide KeyOf, ShortSource, UniqueSources, ShortSources, ReplacedSource;
    if added != [] {
      ReplacedSourcesSound(sources, added[..|added| - 1]);
      ReplacedSourceSound(ReplacedSources(sources, added[..|added| - 1]), added[|added| - 1]);
    }
  }

  lemma AddedWarningShort(warnings: seq<Warning>, warning: Warning)
    requires ShortWarnings(warnings) && ShortWarning(warning)
    ensures ShortWarnings(AddedWarning(warnings, warning))
  {
  }

  lemma {:induction false} AddedWarningsShort(warnings: seq<Warning>, added: seq<Warning>)
    requires ShortWarnings(warnings)
    requires forall x | x in added :: ShortWarning(x)
    ensures ShortWarnings(AddedWarnings(warnings, added))
  {
    hide ShortWarnings, ShortWarning, AddedWarning;
    if added != [] {
      AddedWarningsShort(warnings, added[..|added| - 1]);
      AddedWarningShort(AddedWarnings(warnings, added[..|added| - 1]), added[|added| - 1]);
    }
  }

  ghost predicate AllSettled(r: RunResult) {
    r.weather.status != Pending && r.guide.status != Pending && r.route.status != Pending
  }

  /** A new Run starts sound, from nothing or from the snapshot it supersedes. */
  lemma InitialSound(planRevision: nat, supersedes: Option<RunId>, previous: Option<RunResult>)
    requires planRevision >= 1
    requires previous.Some? ==> Sound(previous.value)
    ensures Sound(Initial(planRevision, supersedes, previous))
    ensures Initial(planRevision, supersedes, previous).resultStatus == Partial
  {
    hide KeyOf;
    assert UniqueSources([]);
    assert |INHERITED_MESSAGE| <= 1000;
    var r := Initial(planRevision, supersedes, previous);
    if previous.Some? && supersedes.Some? {
      assert forall part: Part ::
        && ComponentOf(r, part) == Inherited(ComponentOf(previous.value, part), supersedes.value)
        && PayloadOf(r, part) == PayloadOf(previous.value, part);
    }
  }

  lemma WeatherSucceededSound(r: RunResult, payload: Payload)
    requires Sound(r)
    ensures Sound(WeatherSucceeded(r, payload))
  {
    hide KeyOf, UniqueSources, ShortSources, ShortWarnings, ReplacedSource, AddedWarning, WeatherSource, Strip;
    if payload.source.Some? {
      ReplacedSourceSound(r.sources, WeatherSource(payload.source.value));
    }
    AddedWarningShort(r.warnings, NoticeWarning(Strip(Bounded(payload.notice, 2000))));
    var applied := WeatherSucceeded(r, payload);
    assert ComponentOf(applied, WeatherPart) == MakeComponent(Ready, "", "");
    assert ComponentOf(applied, GuidePart) == ComponentOf(r, GuidePart)
        && ComponentOf(applied, RoutePart) == ComponentOf(r, RoutePart);
    assert PayloadOf(applied, GuidePart) == PayloadOf(applied, RoutePart) == PayloadOf(r, GuidePart)
        == PayloadOf(r, RoutePart);
  }

  lemma WeatherFailedSound(r: RunResult, payload: Payload)
    requires Sound(r)
    ensures Sound(WeatherFailed(r, payload))
  {
    hide KeyOf, UniqueSources, ShortSources, ShortWarnings, AddedWarning, ErrorCodeOf, ErrorMessageOf, Strip;
    AddedWarningShort(r.warnings,
      Warning(ErrorCodeOf(payload), ErrorMessageOf(payload, WEATHER_TOOL), Error, WeatherScope));
    var applied := WeatherFailed(r, payload);
    assert ComponentOf(r, WeatherPart) == r.weather;
    assert ComponentOf(applied, GuidePart) == ComponentOf(r, GuidePart)
        && ComponentOf(applied, RoutePart) == ComponentOf(r, RoutePart);
    assert forall part: Part :: PayloadOf(applied, part) == PayloadOf(r, part);
  }

  lemma TripSucceededSound(r: RunResult, payload: Payload)
    requires Sound(r)
    ensures Sound(TripSucceeded(r, payload))
  {
    hide KeyOf, UniqueSources, ShortSources, ShortWarnings, ReplacedSource, ReplacedSources, AddedWarnings, RawWarnings,
      TripWarnings, PageSources, MentionsDegradedRoute, Strip;
    ReplacedSourcesSound(r.sources, PageSources(payload.pages));
    ReplacedSourceSound(ReplacedSources(r.sources, PageSources(payload.pages)), ROUTE_SOURCE);
    AddedWarningsShort(r.warnings, TripWarnings(RawWarnings(payload.warnings)));
    var applied := TripSucceeded(r, payload);
    assert ComponentOf(applied, WeatherPart) == ComponentOf(r, WeatherPart)
        && PayloadOf(applied, WeatherPart) == PayloadOf(r, WeatherPart);
  }

  lemma TripFailedSound(r: RunResult, payload: Payload)
    requires Sound(r)
    ensures Sound(TripFailed(r, payload))
  {
    hide KeyOf, UniqueSources, ShortSources, ShortWarnings, AddedWarning, ErrorCodeOf, ErrorMessageOf, Strip, Contains;
    AddedWarningShort(r.warnings,
      Warning(ErrorCodeOf(payload), ErrorMessageOf(payload, TRIP_TOOL), Error,
              if Contains(ErrorCodeOf(payload), "ORS") then RouteScope else GuideScope));
    var applied := TripFailed(r, payload);
    assert ComponentOf(r, GuidePart) == r.guide && ComponentOf(r, RoutePart) == r.route;
    assert ComponentOf(applied, WeatherPart) == ComponentOf(r, WeatherPart);
    assert forall part: Part :: PayloadOf(applied, part) == PayloadOf(r, part);
  }

  lemma OutcomeIsIndependent(r: RunResult, status: ResultStatus)
    requires Sound(r)
    ensures Sound(r.(resultStatus := status))
  {
    hide KeyOf, UniqueSources, ShortSources, ShortWarnings;
    var r1 := r.(resultStatus := status);
    assert forall part: Part ::
        ComponentOf(r1, part) == ComponentOf(r, part) && PayloadOf(r1, part) == PayloadOf(r, part);
  }

  /** A tool call, successful or not, keeps the snapshot sound and leaves its outcome open. */
  lemma ToolAppliedSound(r: RunResult, tool: string, snapshot: Option<Payload>, succeeded: bool)
    requires Sound(r)
    ensures Sound(ToolApplied(r, tool, snapshot, succeeded))
    ensures ToolApplied(r, tool, snapshot, succeeded).resultStatus == Partial
  {
    hide Sound, WeatherSucceeded, WeatherFailed, TripSucceeded, TripFailed;
    var payload := if snapshot.Some? then snapshot.value else EMPTY_PAYLOAD;
    WeatherSucceededSound(r, payload);
    WeatherFailedSound(r, payload);
    TripSucceededSound(r, payload);
    TripFailedSound(r, payload);
    OutcomeIsIndependent(WeatherSucceeded(r, payload), Partial);
    OutcomeIsIndependent(WeatherFailed(r, payload), Partial);
    OutcomeIsIndependent(TripSucceeded(r, payload), Partial);
    OutcomeIsIndependent(TripFailed(r, payload), Partial);
    OutcomeIsIndependent(r, Partial);
  }

  /** A completed Run has no open part, and counts as complete only with an answer and both payloads. */
  lemma CompletedSound(r: RunResult, answer: Answer)
    requires Sound(r)
    ensures Sound(Completed(r, answer)) && AllSettled(Completed(r, answer))
    ensures Completed(r, answer).resultStatus != Failed
    ensures Completed(r, answer).resultStatus == Complete <==>
              Strip(AnswerText(answer)) != "" && r.weatherWindow.Some? && r.itinerary.Some?
  {
    hide KeyOf, UniqueSources, ShortSources, ReplacedSources, AnswerSources, Strip, OptionalBounded;
    ReplacedSourcesSound(r.sources, AnswerSources(answer.references));
    var c := Completed(r, answer);
    assert forall part: Part ::
        ComponentOf(c, part) == Settled(ComponentOf(r, part)) && PayloadOf(c, part) == PayloadOf(r, part);
    assert Usable(ComponentOf(c, WeatherPart).status) <==> PayloadOf(r, WeatherPart).Some?;
    assert Usable(ComponentOf(c, GuidePart).status) <==> PayloadOf(r, GuidePart).Some?;
    assert Usable(ComponentOf(c, RoutePart).status) <==> PayloadOf(r, RoutePart).Some?;
  }

  /** A failure keeps every stored payload; a final one leaves no part open. */
  lemma FailureAppliedSound(r: RunResult, errorCode: string, errorMessage: string, terminal: bool)
    requires Sound(r)
    ensures Sound(FailureApplied(r, errorCode, errorMessage, terminal))
    ensures terminal ==> AllSettled(FailureApplied(r, errorCode, errorMessage, terminal))
    ensures terminal ==> FailureApplied(r, errorCode, errorMessage, terminal).resultStatus == Failed
    ensures !terminal ==> FailureApplied(r, errorCode, errorMessage, terminal).resultStatus == r.resultStatus
    ensures FailureApplied(r, errorCode, errorMessage, terminal).weatherWindow == r.weatherWindow
    ensures FailureApplied(r, errorCode, errorMessage, terminal).itinerary == r.itinerary
  {
    hide KeyOf, UniqueSources, ShortSources, OptionalBounded, Strip, ShortWarnings, AddedWarning;
    AddedWarningShort(r.warnings,
      Warning(Bounded(errorCode, 100), Bounded(errorMessage, 2000), if terminal then Error else Warn, AgentScope));
    var f := FailureApplied(r, errorCode, errorMessage, terminal);
    var code, text := Bounded(errorCode, 100), Bounded(errorMessage, 2000);
    assert |STALE_MESSAGE| <= 1000;
    forall part: Part
      ensures PayloadOf(f, part) == PayloadOf(r, part)
      ensures ComponentOf(f, part) == if terminal then Abandoned(ComponentOf(r, part), code, text)
          else ComponentOf(r, part)
      ensures Usable(ComponentOf(f, part).status) <==> PayloadOf(f, part).Some?
      ensures ComponentOf(f, part).inheritedFrom.Some? ==> PayloadOf(f, part).Some?
      ensures ShortComponent(ComponentOf(f, part))
    {
      assert Usable(ComponentOf(r, part).status) <==> PayloadOf(r, part).Some?;
      assert ComponentOf(r, part).inheritedFrom.Some? ==> PayloadOf(r, part).Some?;
      assert ShortComponent(ComponentOf(r, part));
    }
  }

  lemma ContextAppliedSound(r: RunResult, usage: Usage)
    requires Sound(r)
    ensures Sound(ContextApplied(r, usage))
  {
    hide KeyOf, UniqueSources, ShortSources, ShortWarnings;
    var c := ContextApplied(r, usage);
    assert forall part: Part ::
        ComponentOf(c, part) == ComponentOf(r, part) && PayloadOf(c, part) == PayloadOf(r, part);
  }

  // ---------------------------------------------------------------- where a part comes from

  /** The stored payload of a part and the Run it was taken over from, if any. */
  function Provenance(r: RunResult, part: Part): (Option<Payload>, Option<RunId>) {
    (PayloadOf(r, part), ComponentOf(r, part).inheritedFrom)
  }

  /** The payload a successful call of a tool stores. */
  function Stored(snapshot: Option<Payload>): Payload {
    if snapshot.Some? then snapshot.value else EMPTY_PAYLOAD
  }

  /** Only a successful call of the part's own tool changes where the part comes from, and then it
      comes from this very call. */
  lemma ToolProvenance(r: RunResult, tool: string, snapshot: Option<Payload>, succeeded: bool, part: Part)
    ensures Provenance(ToolApplied(r, tool, snapshot, succeeded), part)
         == if tool == ToolOf(part) && succeeded then (Some(Stored(snapshot)), None) else Provenance(r, part)
  {
    hide KeyOf, ReplacedSource, ReplacedSources, AddedWarning, AddedWarnings, RawWarnings, TripWarnings, PageSources,
      MentionsDegradedRoute, Contains, WeatherSource, ErrorCodeOf, ErrorMessageOf, Strip, OptionalBounded;
    assert |WEATHER_TOOL| != |TRIP_TOOL|;
  }

  /** Completion and failure take over every payload with its provenance. */
  lemma EndingProvenance(r: RunResult, answer: Answer, errorCode: string, errorMessage: string, terminal: bool,
                         part: Part)
    requires PartsAgree(r)
    ensures Provenance(Completed(r, answer), part) == Provenance(r, part)
    ensures Provenance(FailureApplied(r, errorCode, errorMessage, terminal), part) == Provenance(r, part)
  {
    hide KeyOf, ReplacedSources, AddedWarning, AnswerSources, Strip, OptionalBounded;
    assert Usable(ComponentOf(r, part).status) <==> PayloadOf(r, part).Some?;
  }

  /** A new Run takes over every payload of the Run it supersedes, and says so. */
  lemma InitialProvenance(planRevision: nat, from: RunId, previous: RunResult, part: Part)
    requires PartsAgree(previous)
    ensures Provenance(Initial(planRevision, Some(from), Some(previous)), part)
         == (PayloadOf(previous, part), if PayloadOf(previous, part).Some? then Some(from) else None)
  {
    assert Usable(ComponentOf(previous, part).status) <==> PayloadOf(previous, part).Some?;
  }
}
