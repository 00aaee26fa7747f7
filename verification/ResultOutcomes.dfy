/**
  What is left on the fields of a result snapshot by each of the calls that change it, one lemma a
  branch. The lemmas name the fields, the fixed texts and the length limits, not the functions that
  compute the snapshots.
 */
module ResultOutcomes {
  import opened Wrappers
  import opened RunModels
  import opened Sequences
  import opened Texts
  import opened RunResults

  // ---------------------------------------------------------------- texts and ledgers

  /** An optional text: its first `limit` characters, stripped, or nothing if that leaves nothing. */
  predicate ShortText(s: string, limit: nat, r: Option<string>) {
    var text := Strip(if |s| <= limit then s else s[..limit]);
    if text == "" then r.None? else r == Some(text)
  }

  predicate SameSource(a: Source, b: Source) {
    && Lower(a.provider) == Lower(b.provider) && a.purpose == b.purpose
    && (if a.url.Some? then a.url.value else "") == (if b.url.Some? then b.url.value else "")
  }

  /** `source` comes last; before it stand, in order, the entries of the old list at the positions `at`:
      all that do not share its provider, address and purpose, less the oldest beyond the hundred. */
  predicate NewestSource(before: seq<Source>, after: seq<Source>, source: Source, at: seq<nat>) {
    && |after| == |at| + 1 && |after| <= 100 && after[|at|] == source
    && Increasing(at, |before|)
    && (forall i | 0 <= i < |at| :: after[i] == before[at[i]] && !SameSource(after[i], source))
    && (forall j: nat | j < |before| && !SameSource(before[j], source) && j !in at ::
          |after| == 100 && forall i | 0 <= i < |at| :: j < at[i])
  }

  ghost predicate TakesSource(before: seq<Source>, after: seq<Source>, source: Source) {
    exists at :: NewestSource(before, after, source, at)
  }

  /** One list after another, each with one more source. */
  ghost predicate TakesSources(before: seq<Source>, after: seq<Source>, added: seq<Source>, steps: seq<seq<Source>>) {
    && |steps| == |added| + 1 && steps[0] == before && steps[|added|] == after
    && forall n | 0 <= n < |added| :: TakesSource(steps[n], steps[n + 1], added[n])
  }

  /** Nothing if the same code, text and scope are listed already; else the warning comes last, and the
      oldest makes room for it if there were a hundred. */
  predicate TakesWarning(before: seq<Warning>, after: seq<Warning>, w: Warning) {
    if exists x | x in before :: x.code == w.code && x.message == w.message && x.scope == w.scope
    then after == before
    else after == if |before| < 100 then before + [w] else before[|before| - 99..] + [w]
  }

  ghost predicate TakesWarnings(before: seq<Warning>, after: seq<Warning>, added: seq<Warning>,
                                steps: seq<seq<Warning>>) {
    && |steps| == |added| + 1 && steps[0] == before && steps[|added|] == after
    && forall n | 0 <= n < |added| :: TakesWarning(steps[n], steps[n + 1], added[n])
  }

  lemma {:induction false} OthersAt(sources: seq<Source>, source: Source) returns (at: seq<nat>)
    ensures var kept := OtherSources(sources, KeyOf(source));
            && |kept| == |at| && Increasing(at, |sources|)
            && (forall i | 0 <= i < |at| :: kept[i] == sources[at[i]] && !SameSource(kept[i], source))
    ensures forall j: nat | j < |sources| && !SameSource(sources[j], source) :: j in at
  {
    at := [];
    if sources != [] {
      var init, last := sources[..|sources| - 1], sources[|sources| - 1];
      at := OthersAt(init, source);
      if KeyOf(last) != KeyOf(source) {
        at := at + [|sources| - 1];
      }
    }
  }

  lemma SourceTaken(sources: seq<Source>, source: Source)
    requires |sources| <= 100
    ensures TakesSource(sources, ReplacedSource(sources, source), source)
  {
    hide KeyOf, SameSource, OtherSources;
    var at := OthersAt(sources, source);
    var kept := OtherSources(sources, KeyOf(source));
    if |kept| < 100 {
      assert NewestSource(sources, ReplacedSource(sources, source), source, at);
    } else {
      assert ReplacedSource(sources, source) == kept[|kept| - 99..] + [source];
      DroppedOldest(sources, kept, source, at);
    }
  }

  lemma DroppedOldest(sources: seq<Source>, kept: seq<Source>, source: Source, at: seq<nat>)
    requires 100 <= |at| == |kept| && Increasing(at, |sources|)
    requires forall i | 0 <= i < |at| :: kept[i] == sources[at[i]] && !SameSource(kept[i], source)
    requires forall j: nat | j < |sources| && !SameSource(sources[j], source) :: j in at
    ensures NewestSource(sources, kept[|kept| - 99..] + [source], source, at[|at| - 99..])
  {
    hide SameSource;
    var late := at[|at| - 99..];
    forall k | |at| - 99 <= k < |at| ensures at[k] in late {
      assert late[k - (|at| - 99)] == at[k];
    }
    forall j: nat | j < |sources| && !SameSource(sources[j], source) && j !in late
      ensures forall i | 0 <= i < |late| :: j < late[i]
    {
      var k :| 0 <= k < |at| && at[k] == j;
    }
  }

  lemma {:induction false} SourcesTaken(sources: seq<Source>, added: seq<Source>) returns (steps: seq<seq<Source>>)
    requires |sources| <= 100
    ensures TakesSources(sources, ReplacedSources(sources, added), added, steps)
    ensures |ReplacedSources(sources, added)| <= 100
  {
    hide TakesSource, ReplacedSource;
    if added == [] {
      steps := [sources];
    } else {
      var init, last := added[..|added| - 1], added[|added| - 1];
      var so := ReplacedSources(sources, init);
      steps := SourcesTaken(sources, init);
      SourceTaken(so, last);
      LedgerIsBounded(so, last);
      steps := steps + [ReplacedSource(so, last)];
    }
  }

  lemma LedgerIsBounded(sources: seq<Source>, source: Source)
    ensures |ReplacedSource(sources, source)| <= 100
  {
  }

  lemma WarningTaken(warnings: seq<Warning>, w: Warning)
    requires |warnings| <= 100
    ensures TakesWarning(warnings, AddedWarning(warnings, w), w) && |AddedWarning(warnings, w)| <= 100
  {
  }

  lemma {:induction false} WarningsTaken(warnings: seq<Warning>, added: seq<Warning>)
    returns (steps: seq<seq<Warning>>)
    requires |warnings| <= 100
    ensures TakesWarnings(warnings, AddedWarnings(warnings, added), added, steps)
    ensures |AddedWarnings(warnings, added)| <= 100
  {
    hide TakesWarning, AddedWarning;
    if added == [] {
      steps := [warnings];
    } else {
      var init, last := added[..|added| - 1], added[|added| - 1];
      steps := WarningsTaken(warnings, init);
      WarningTaken(AddedWarnings(warnings, init), last);
      steps := steps + [AddedWarning(AddedWarnings(warnings, init), last)];
    }
  }

  // ---------------------------------------------------------------- tool calls

  /** What a successful answer's own error fields say, or the fixed texts in their place. */
  function CodeText(payload: Payload): string {
    var text := if payload.errorCode != "" then payload.errorCode else "TOOL_EXECUTION_FAILED";
    if |text| <= 100 then text else text[..100]
  }

  function MessageText(payload: Payload, tool: string): string {
    var text := if payload.message != "" then payload.message else tool + " 执行失败。";
    if |text| <= 2000 then text else text[..2000]
  }

  /** A part after a failed call: degraded if its payload is stored, else unavailable; where it came from stays. */
  predicate PartFailed(c: Component, c1: Component, stored: bool, code: string, message: string) {
    && c1.status == (if stored then Degraded else Unavailable)
    && ShortText(code, 100, c1.errorCode) && ShortText(message, 1000, c1.message)
    && c1.inheritedFrom == c.inheritedFrom
  }

  /** A forecast was found: it is stored, its part is ready, its source and its notice are listed. */
  lemma WeatherFound(r: RunResult, payload: Payload)
    requires |r.sources| <= 100 && |r.warnings| <= 100
    ensures var r1 := ToolApplied(r, "find_best_weather_window", Some(payload), true);
            && r1 == r.(resultStatus := Partial, weatherWindow := Some(payload), weather := r1.weather,
                        sources := r1.sources, warnings := r1.warnings)
            && r1.weather == Component(Ready, None, None, None)
            && (payload.source.None? ==> r1.sources == r.sources)
            && (payload.source.Some? ==> exists source ::
                  && TakesSource(r.sources, r1.sources, source)
                  && source.provider == Bounded(if payload.source.value.provider != ""
                                                then payload.source.value.provider else "Open-Meteo", 100)
                  && source.title == "近期天气预报" && source.purpose == "weather"
                  && ShortText(payload.source.value.url, 2000, source.url))
            && var notice := Strip(Bounded(payload.notice, 2000));
               if notice == "" then r1.warnings == r.warnings
               else TakesWarning(r.warnings, r1.warnings,
                                 Warning("WEATHER_FORECAST_NOTICE", notice, Info, WeatherScope))
  {
    hide ReplacedSource, AddedWarning, TakesSource, TakesWarning, Strip;
    assert Strip("") == "" by { BlankIs(""); }
    if payload.source.Some? {
      SourceTaken(r.sources, WeatherSource(payload.source.value));
    }
    WarningTaken(r.warnings, NoticeWarning(Strip(Bounded(payload.notice, 2000))));
  }

  lemma WeatherLost(r: RunResult, payload: Payload)
    requires |r.warnings| <= 100
    ensures var r1 := ToolApplied(r, "find_best_weather_window", Some(payload), false);
            var code, message := CodeText(payload), MessageText(payload, "find_best_weather_window");
            && r1 == r.(resultStatus := Partial, weather := r1.weather, warnings := r1.warnings)
            && PartFailed(r.weather, r1.weather, r.weatherWindow.Some?, code, message)
            && TakesWarning(r.warnings, r1.warnings, Warning(code, message, Error, WeatherScope))
  {
    hide AddedWarning, TakesWarning, Strip;
    WarningTaken(r.warnings,
      Warning(ErrorCodeOf(payload), ErrorMessageOf(payload, WEATHER_TOOL), Error, WeatherScope));
  }

  /** `added` are the warnings of an answer at the positions `at`: all that are not blank, in order, cut
      and stripped, filed under the route when they name it. */
  predicate WarningsOf(texts: seq<string>, added: seq<Warning>, at: seq<nat>) {
    && |added| == |at| && Increasing(at, |texts|)
    && (forall j: nat | j < |texts| :: j in at <==> !Blank(texts[j]))
    && (forall i | 0 <= i < |at| :: FiledWarning(added[i], Strip(Bounded(texts[at[i]], 2000))))
  }

  predicate FiledWarning(w: Warning, text: string) {
    && w.code == "TOOL_WARNING" && w.message == text && w.severity == Warn
    && var low := Lower(text);
       w.scope == if || Contains(low, "ors") || Contains(low, "路线") || Contains(low, "矩阵")
                     || Contains(low, "geocoder") || Contains(low, "交通")
                  then RouteScope else GuideScope
  }

  /** A kept warning that tells of missing or replaced route data. */
  predicate TellsOfDegradation(w: Warning) {
    var low := Lower(w.message);
    || Contains(low, "ors") || Contains(low, "矩阵") || Contains(low, "geocoder")
    || Contains(low, "降级") || Contains(low, "替代")
  }

  /** `added` are the guide pages of an answer at the positions `at`: all that are mappings, in order. */
  predicate PagesOf(pages: seq<Option<Reference>>, added: seq<Source>, at: seq<nat>) {
    && |added| == |at| && Increasing(at, |pages|)
    && (forall j: nat | j < |pages| :: j in at <==> pages[j].Some?)
    && (forall i | 0 <= i < |at| :: pages[at[i]].Some? && PageSource(added[i], pages[at[i]].value))
  }

  predicate PageSource(source: Source, page: Reference) {
    && source.provider == "Wikivoyage" && source.purpose == "guide"
    && source.title == Bounded(if page.title != "" then page.title else "Wikivoyage 攻略", 500)
    && ShortText(page.url, 2000, source.url)
  }

  /** The texts of an answer's warnings, before they are filed. */
  predicate TextsOf(texts: seq<string>, raw: seq<string>, at: seq<nat>) {
    && |raw| == |at| && Increasing(at, |texts|)
    && (forall j: nat | j < |texts| :: j in at <==> !Blank(texts[j]))
    && (forall i | 0 <= i < |at| :: raw[i] == Strip(Bounded(texts[at[i]], 2000)))
  }

  lemma {:induction false} RawWarningsAre(texts: seq<string>) returns (at: seq<nat>)
    ensures TextsOf(texts, RawWarnings(texts), at)
  {
    hide Strip, Blank, TextsOf;
    at := [];
    if texts == [] {
      NoTexts(texts);
    } else {
      var init, last := texts[..|texts| - 1], texts[|texts| - 1];
      at := RawWarningsAre(init);
      assert texts == init + [last];
      BlankIs(last);
      OneMoreText(init, last, RawWarnings(init), at);
      var raw, text := RawWarnings(init), Strip(Bounded(last, 2000));
      if Strip(last) != "" {
        at := at + [|init|];
        assert RawWarnings(texts) == raw + [text];
      } else {
        assert RawWarnings(texts) == raw;
      }
    }
  }

  lemma NoTexts(texts: seq<string>)
    requires texts == []
    ensures TextsOf(texts, RawWarnings(texts), [])
  {
  }

  lemma OneMoreText(texts: seq<string>, text: string, raw: seq<string>, at: seq<nat>)
    requires TextsOf(texts, raw, at)
    ensures if Blank(text) then TextsOf(texts + [text], raw, at)
            else TextsOf(texts + [text], raw + [Strip(Bounded(text, 2000))], at + [|texts|])
  {
    hide Blank, Strip;
    var more := texts + [text];
    forall j: nat | j < |more| ensures j in at + [|texts|] <==> j in at || j == |texts| {
    }
    forall i | 0 <= i < |at| ensures more[at[i]] == texts[at[i]] {
    }
  }

  lemma {:induction false} FiledEach(raw: seq<string>)
    requires forall x | x in raw :: |x| <= 2000
    ensures |TripWarnings(raw)| == |raw|
    ensures forall i | 0 <= i < |raw| :: FiledWarning(TripWarnings(raw)[i], raw[i])
  {
    hide Lower, Contains;
    if raw != [] {
      FiledEach(raw[..|raw| - 1]);
    }
  }

  lemma WarningsAre(texts: seq<string>) returns (at: seq<nat>)
    ensures WarningsOf(texts, TripWarnings(RawWarnings(texts)), at)
    ensures |RawWarnings(texts)| == |TripWarnings(RawWarnings(texts))|
    ensures forall i | 0 <= i < |RawWarnings(texts)| ::
              RawWarnings(texts)[i] == TripWarnings(RawWarnings(texts))[i].message
  {
    hide Strip, Contains, Lower, Blank, RawWarnings, TripWarnings;
    at := RawWarningsAre(texts);
    FiledEach(RawWarnings(texts));
  }

  lemma {:induction false} PagesAre(pages: seq<Option<Reference>>) returns (at: seq<nat>)
    ensures PagesOf(pages, PageSources(pages), at)
  {
    hide PagesOf, GuideSource;
    at := [];
    if pages == [] {
      NoPages(pages);
    } else {
      var init, last := pages[..|pages| - 1], pages[|pages| - 1];
      at := PagesAre(init);
      assert pages == init + [last];
      OneMorePage(init, last, PageSources(init), at);
      if last.Some? {
        at := at + [|init|];
        assert PageSources(pages) == PageSources(init) + [GuideSource(last.value)];
      } else {
        assert PageSources(pages) == PageSources(init);
      }
    }
  }

  lemma NoPages(pages: seq<Option<Reference>>)
    requires pages == []
    ensures PagesOf(pages, PageSources(pages), [])
  {
  }

  lemma OneMorePage(pages: seq<Option<Reference>>, last: Option<Reference>, added: seq<Source>, at: seq<nat>)
    requires PagesOf(pages, added, at)
    ensures if last.None? then PagesOf(pages + [last], added, at)
            else PagesOf(pages + [last], added + [GuideSource(last.value)], at + [|pages|])
  {
    hide PageSource, GuideSource;
    if last.Some? {
      NamesItsPage(last.value);
    }
    var more := pages + [last];
    forall j: nat | j < |more| ensures j in at + [|pages|] <==> j in at || j == |pages| {
    }
    forall i | 0 <= i < |at| ensures more[at[i]] == pages[at[i]] {
    }
  }

  lemma NamesItsPage(page: Reference)
    ensures PageSource(GuideSource(page), page)
  {
    hide Strip;
  }

  /** A trip was planned: it is stored, the guide is ready, the route is degraded exactly when a kept
      warning tells so, and pages, the route service and the warnings are listed. */
  lemma TripFound(r: RunResult, payload: Payload)
    returns (pages: seq<Source>, warnings: seq<Warning>, pagesAt: seq<nat>, warningsAt: seq<nat>,
             sourceSteps: seq<seq<Source>>, warningSteps: seq<seq<Warning>>)
    requires |r.sources| <= 100 && |r.warnings| <= 100
    ensures PagesOf(payload.pages, pages, pagesAt) && WarningsOf(payload.warnings, warnings, warningsAt)
    ensures var r1 := ToolApplied(r, "plan_wikivoyage_trip", Some(payload), true);
            && r1 == r.(resultStatus := Partial, itinerary := Some(payload), guide := r1.guide, route := r1.route,
                        sources := r1.sources, warnings := r1.warnings)
            && r1.guide == Component(Ready, None, None, None)
            && r1.route == (if exists w | w in warnings :: TellsOfDegradation(w)
                            then Component(Degraded, None, Some("路线包含降级数据。"), None)
                            else Component(Ready, None, None, None))
            && TakesSources(r.sources, r1.sources,
                            pages + [Source("OpenRouteService", "路线与交通矩阵",
                                            Some("https://openrouteservice.org/"), "route")], sourceSteps)
            && TakesWarnings(r.warnings, r1.warnings, warnings, warningSteps)
  {
    hide ReplacedSource, ReplacedSources, AddedWarnings, PageSources, TripWarnings, RawWarnings, TakesSources,
         TakesWarnings, PagesOf, WarningsOf, Lower, Contains, Strip;
    var raw := RawWarnings(payload.warnings);
    pages, warnings := PageSources(payload.pages), TripWarnings(raw);
    pagesAt := PagesAre(payload.pages);
    warningsAt := WarningsAre(payload.warnings);
    var added := pages + [ROUTE_SOURCE];
    sourceSteps := SourcesTaken(r.sources, added);
    OneMoreSource(r.sources, pages, ROUTE_SOURCE);
    warningSteps := WarningsTaken(r.warnings, warnings);
    DegradationAgrees(raw, warnings);
    FixedTexts();
  }

  lemma OneMoreSource(sources: seq<Source>, added: seq<Source>, source: Source)
    ensures ReplacedSources(sources, added + [source]) == ReplacedSource(ReplacedSources(sources, added), source)
  {
    assert (added + [source])[..|added|] == added;
  }

  lemma DegradationAgrees(raw: seq<string>, warnings: seq<Warning>)
    requires |raw| == |warnings| && forall i | 0 <= i < |raw| :: raw[i] == warnings[i].message
    ensures (exists w | w in raw :: MentionsDegradedRoute(w)) <==> (exists w | w in warnings :: TellsOfDegradation(w))
  {
    hide Lower, Contains;
    if w :| w in raw && MentionsDegradedRoute(w) {
      var i :| 0 <= i < |raw| && raw[i] == w;
      assert warnings[i] in warnings && TellsOfDegradation(warnings[i]);
    }
    if w :| w in warnings && TellsOfDegradation(w) {
      var i :| 0 <= i < |raw| && warnings[i] == w;
      assert raw[i] in raw && MentionsDegradedRoute(raw[i]);
    }
  }

  /** Fixed texts that begin and end with visible characters are stored as they are. */
  lemma FixedTexts()
    ensures Strip("") == "" && Strip("路线包含降级数据。") == "路线包含降级数据。"
    ensures Strip("本次 Run 未生成该组件。") == "本次 Run 未生成该组件。"
  {
    assert !IsSpace("路线包含降级数据。"[0]) && !IsSpace("路线包含降级数据。"[|"路线包含降级数据。"| - 1]);
    assert !IsSpace("本次 Run 未生成该组件。"[0]);
    assert !IsSpace("本次 Run 未生成该组件。"[|"本次 Run 未生成该组件。"| - 1]);
  }

  lemma TripLost(r: RunResult, payload: Payload)
    requires |r.warnings| <= 100
    ensures var r1 := ToolApplied(r, "plan_wikivoyage_trip", Some(payload), false);
            var code, message := CodeText(payload), MessageText(payload, "plan_wikivoyage_trip");
            && r1 == r.(resultStatus := Partial, guide := r1.guide, route := r1.route, warnings := r1.warnings)
            && PartFailed(r.guide, r1.guide, r.itinerary.Some?, code, message)
            && PartFailed(r.route, r1.route, r.itinerary.Some?, code, message)
            && TakesWarning(r.warnings, r1.warnings,
                            Warning(code, message, Error, if Contains(code, "ORS") then RouteScope else GuideScope))
  {
    hide AddedWarning, TakesWarning, Contains, Strip;
    var code := ErrorCodeOf(payload);
    WarningTaken(r.warnings, Warning(code, ErrorMessageOf(payload, TRIP_TOOL), Error,
                                     if Contains(code, "ORS") then RouteScope else GuideScope));
  }

  /** A missing answer counts as an empty one, and other tools leave every part alone. */
  lemma OtherTools(r: RunResult, tool: string, snapshot: Option<Payload>, succeeded: bool)
    ensures ToolApplied(r, tool, None, succeeded)
         == ToolApplied(r, tool, Some(Payload("", "", "", None, "", [], [])), succeeded)
    ensures tool != "find_best_weather_window" && tool != "plan_wikivoyage_trip" ==>
              ToolApplied(r, tool, snapshot, succeeded) == r.(resultStatus := Partial)
  {
    hide WeatherSucceeded, WeatherFailed, TripSucceeded, TripFailed;
  }

  // ---------------------------------------------------------------- the ends of a Run

  /** A part the Run never produced is unavailable, any other stays as it is. */
  predicate PartClosed(c: Component, c1: Component) {
    c1 == if c.status == Pending then Component(Unavailable, None, Some("本次 Run 未生成该组件。"), None) else c
  }

  predicate AnswerSource(source: Source, reference: Reference) {
    && source.provider == Bounded(if reference.provider != "" then reference.provider else "Agent reference", 100)
    && source.title == Bounded(if reference.title != "" then reference.title else "参考来源", 500)
    && source.purpose == Bounded(if reference.purpose != "" then reference.purpose else "guide", 100)
    && ShortText(reference.url, 2000, source.url)
  }

  predicate ReferencesOf(references: seq<Option<Reference>>, added: seq<Source>, at: seq<nat>) {
    && |added| == |at| && Increasing(at, |references|)
    && (forall j: nat | j < |references| :: j in at <==> references[j].Some?)
    && (forall i | 0 <= i < |at| :: references[at[i]].Some? && AnswerSource(added[i], references[at[i]].value))
  }

  lemma {:induction false} ReferencesAre(references: seq<Option<Reference>>) returns (at: seq<nat>)
    ensures ReferencesOf(references, AnswerSources(references), at)
  {
    hide ReferencesOf, ReferenceSource;
    at := [];
    if references == [] {
      NoReferences(references);
    } else {
      var init, last := references[..|references| - 1], references[|references| - 1];
      at := ReferencesAre(init);
      assert references == init + [last];
      OneMoreReference(init, last, AnswerSources(init), at);
      if last.Some? {
        at := at + [|init|];
        assert AnswerSources(references) == AnswerSources(init) + [ReferenceSource(last.value)];
      } else {
        assert AnswerSources(references) == AnswerSources(init);
      }
    }
  }

  lemma OneMoreReference(references: seq<Option<Reference>>, last: Option<Reference>, added: seq<Source>, at: seq<nat>)
    requires ReferencesOf(references, added, at)
    ensures if last.None? then ReferencesOf(references + [last], added, at)
            else ReferencesOf(references + [last], added + [ReferenceSource(last.value)], at + [|references|])
  {
    hide AnswerSource, ReferenceSource;
    if last.Some? {
      NamesItsReference(last.value);
    }
    var more := references + [last];
    forall j: nat | j < |more| ensures j in at + [|references|] <==> j in at || j == |references| {
    }
    forall i | 0 <= i < |at| ensures more[at[i]] == references[at[i]] {
    }
  }

  lemma NamesItsReference(reference: Reference)
    ensures AnswerSource(ReferenceSource(reference), reference)
  {
    hide Strip;
  }

  lemma NoReferences(references: seq<Option<Reference>>)
    requires references == []
    ensures ReferencesOf(references, AnswerSources(references), [])
  {
  }

  /** The agent answered: its text and sources are stored, open parts are closed, and the result is
      complete exactly when the text is not blank and no part is missing. */
  lemma Answered(r: RunResult, answer: Answer)
    returns (added: seq<Source>, at: seq<nat>, steps: seq<seq<Source>>)
    requires |r.sources| <= 100
    ensures ReferencesOf(answer.references, added, at)
    ensures var r1 := Completed(r, answer);
            && r1 == r.(resultStatus := r1.resultStatus, assistantAnswer := r1.assistantAnswer,
                        sources := r1.sources, weather := r1.weather, guide := r1.guide, route := r1.route)
            && r1.assistantAnswer == (if answer.assistantAnswer != "" then answer.assistantAnswer else answer.answer)
            && PartClosed(r.weather, r1.weather) && PartClosed(r.guide, r1.guide) && PartClosed(r.route, r1.route)
            && TakesSources(r.sources, r1.sources, added, steps)
            && r1.resultStatus == (if && !Blank(r1.assistantAnswer)
                                      && (r.weather.status == Ready || r.weather.status == Degraded)
                                      && (r.guide.status == Ready || r.guide.status == Degraded)
                                      && (r.route.status == Ready || r.route.status == Degraded)
                                   then Complete else Partial)
  {
    hide ReplacedSources, AnswerSources, TakesSources, ReferencesOf, Strip, Blank;
    added := AnswerSources(answer.references);
    at := ReferencesAre(answer.references);
    steps := SourcesTaken(r.sources, added);
    FixedTexts();
    BlankIs(AnswerText(answer));
  }

  /** A part of a Run that ended without success: never produced, taken over from an earlier Run, or the
      Run's own. */
  predicate PartAbandoned(c: Component, c1: Component, code: string, message: string) {
    if c.status == Pending
    then c1.status == Unavailable && ShortText(code, 100, c1.errorCode) && ShortText(message, 1000, c1.message)
         && c1.inheritedFrom == None
    else if c.inheritedFrom.Some?
    then c1 == Component(Degraded, Some(code), Some("本次 Run 未完成，当前展示内容沿用上一成功版本。"), c.inheritedFrom)
    else c1 == c
  }

  /** What a result says after an attempt that did not succeed: the last one marks it failed and closes its
      parts, an earlier one leaves only a warning. */
  predicate FailureShown(r: RunResult, r1: RunResult, errorCode: string, errorMessage: string, terminal: bool) {
    var code := if |errorCode| <= 100 then errorCode else errorCode[..100];
    var message := if |errorMessage| <= 2000 then errorMessage else errorMessage[..2000];
    && r1 == r.(resultStatus := r1.resultStatus, weather := r1.weather, guide := r1.guide, route := r1.route,
                warnings := r1.warnings)
    && TakesWarning(r.warnings, r1.warnings, Warning(code, message, if terminal then Error else Warn, AgentScope))
    && (terminal ==>
          && r1.resultStatus == ResultStatus.Failed && PartAbandoned(r.weather, r1.weather, code, message)
          && PartAbandoned(r.guide, r1.guide, code, message) && PartAbandoned(r.route, r1.route, code, message))
    && (!terminal ==>
          && r1.resultStatus == r.resultStatus && r1.weather == r.weather && r1.guide == r.guide
          && r1.route == r.route)
  }

  lemma FailureIsShown(r: RunResult, errorCode: string, errorMessage: string, terminal: bool)
    requires |r.warnings| <= 100
    ensures FailureShown(r, FailureApplied(r, errorCode, errorMessage, terminal), errorCode, errorMessage, terminal)
  {
    hide AddedWarning, TakesWarning, Strip;
    WarningTaken(r.warnings, Warning(Bounded(errorCode, 100), Bounded(errorMessage, 2000),
                                     if terminal then Error else Warn, AgentScope));
  }

  // ---------------------------------------------------------------- the start of a Run

  /** A usable part of the earlier Run is taken over and says so; any other stays as it is. */
  predicate PartTakenOver(c: Component, c1: Component, from: RunId) {
    c1 == if c.status == Ready || c.status == Degraded
          then Component(c.status, c.errorCode, Some("沿用上一版结果，等待本次 Run 确认或更新。"), Some(from)) else c
  }

  /** A first Run starts with nothing; a later one with the payloads, sources, warnings and parts of the
      newest success, but with no answer and no context of its own. */
  lemma Started(planRevision: nat, from: RunId, previous: RunResult)
    ensures var blank := Component(Pending, None, None, None);
            Initial(planRevision, None, None)
            == RunResult(Partial, planRevision, None, "", None, None, [], [], blank, blank, blank, None)
    ensures var r := Initial(planRevision, Some(from), Some(previous));
            && r == RunResult(Partial, planRevision, Some(from), "", previous.weatherWindow, previous.itinerary,
                              previous.sources, previous.warnings, r.weather, r.guide, r.route, None)
            && PartTakenOver(previous.weather, r.weather, from) && PartTakenOver(previous.guide, r.guide, from)
            && PartTakenOver(previous.route, r.route, from)
  {
  }
}
