/** The search bar (frontend/components/SearchBar.tsx): the error classifier, the geocoding
    search with its outcomes, and the input, selection, submit and outside-click handlers,
    each as a transition of the component's state.

    The environment is a parameter: the access token, and how the request ends (rejected,
    answered with an error status, or answered with a body). The debounce timer is the
    `pending` query it will search when it fires; timer delays and the ordering of
    overlapping requests are not modelled. */
module SearchBar {
  import opened Common
  import opened Text
  import Decimal
  import MapPanel

  // ---------------------------------------------------------------- error classifier

  datatype ErrorInfo = ErrorInfo(message: string, tips: string)

  const TokenPattern: string := "access token not found"

  const ConfigurationError: ErrorInfo :=
    ErrorInfo("Configuration Error", "The Mapbox access token is missing. Please check your environment configuration.")
  const AuthenticationFailed: ErrorInfo :=
    ErrorInfo("Authentication Failed", "The Mapbox access token is invalid or expired. Please check your token.")
  const PermissionDenied: ErrorInfo :=
    ErrorInfo("Permission Denied", "Your Mapbox token doesn't have geocoding permissions.")
  const RateLimited: ErrorInfo :=
    ErrorInfo("Rate Limited", "Too many requests. Please wait a moment and try again.")
  const ConnectivityTip: string := "Please check your internet connection and try again."
  const NetworkError: ErrorInfo := ErrorInfo("Network Error", ConnectivityTip)

  predicate NetworkLike(msg: string) {
    Contains(msg, "network") || Contains(msg, "fetch")
  }

  /** `getErrorWithTips`: the first pattern the message contains picks the category, in the
      order token, 401, 403, 429, network/fetch; a message with none keeps its own text. */
  function GetErrorWithTips(msg: string): (e: ErrorInfo)
    ensures Contains(msg, TokenPattern) <==> e == ConfigurationError
    ensures !Contains(msg, TokenPattern) && Contains(msg, "401") ==> e == AuthenticationFailed
    ensures !Contains(msg, TokenPattern) && !Contains(msg, "401") && Contains(msg, "403") ==> e == PermissionDenied
    ensures (!Contains(msg, TokenPattern) && !Contains(msg, "401") && !Contains(msg, "403") && Contains(msg, "429"))
              ==> e == RateLimited
    ensures (!Contains(msg, TokenPattern) && !Contains(msg, "401") && !Contains(msg, "403") && !Contains(msg, "429"))
              ==> e == (if NetworkLike(msg) then NetworkError else ErrorInfo(msg, ConnectivityTip))
    ensures e.tips == ConnectivityTip <==>
              !Contains(msg, TokenPattern) && !Contains(msg, "401") && !Contains(msg, "403") && !Contains(msg, "429")
  {
    if Contains(msg, TokenPattern) then ConfigurationError
    else if Contains(msg, "401") then AuthenticationFailed
    else if Contains(msg, "403") then PermissionDenied
    else if Contains(msg, "429") then RateLimited
    else if NetworkLike(msg) then NetworkError
    else ErrorInfo(msg, ConnectivityTip)
  }

  /** What reaches the `catch`: an `Error` object with its message, or any other value. */
  datatype Thrown = ErrorObject(message: string) | OtherValue

  /** The catch passes an `Error` through and replaces anything else by 'Search failed'. */
  function ThrownMessage(t: Thrown): (msg: string)
    ensures t.ErrorObject? ==> msg == t.message
    ensures t.OtherValue? ==> msg == "Search failed"
  {
    match t
    case ErrorObject(m) => m
    case OtherValue => "Search failed"
  }

  const MissingTokenMessage: string := "Mapbox access token not found"

  lemma MissingTokenIsConfigurationError()
    ensures GetErrorWithTips(MissingTokenMessage) == ConfigurationError
  {
    MissingTokenNamesPattern();
  }

  lemma MissingTokenNamesPattern()
    ensures Contains(MissingTokenMessage, TokenPattern)
  {
    assert MissingTokenMessage == "Mapbox " + TokenPattern;
    assert MissingTokenMessage[7..7 + |TokenPattern|] == TokenPattern;
    assert OccursAt(MissingTokenMessage, TokenPattern, 7);
  }

  lemma OtherThrownValueIsGeneric()
    ensures GetErrorWithTips(ThrownMessage(OtherValue)) == ErrorInfo("Search failed", ConnectivityTip)
  {
    var m := "Search failed";
    assert !Contains(m, TokenPattern) by { assert |m| < |TokenPattern|; }
    assert !Contains(m, "fetch") by {
      assert m == "Se" + ['a'] + ("rch f" + ['a'] + "iled");
      ContainsAcrossSeparator("Se", 'a', "rch f" + ['a'] + "iled", "fetch");
      ContainsAcrossSeparator("rch f", 'a', "iled", "fetch");
      ContainsSameLength("rch f", "fetch");
    }
    NotContainsWithoutFirstChar(m, "401");
    NotContainsWithoutFirstChar(m, "403");
    NotContainsWithoutFirstChar(m, "429");
    NotContainsWithoutFirstChar(m, "network");
  }

  const FailedFetchPrefix: string := "Failed to fetch search results: "

  /** The error thrown for a non-OK response: the status as a decimal numeral, a space, the
      status text. */
  function FailedFetchMessage(status: int, statusText: string): (msg: string)
    ensures |msg| > |FailedFetchPrefix| && msg[..|FailedFetchPrefix|] == FailedFetchPrefix
  {
    FailedFetchPrefix + Decimal.IntToString(status) + " " + statusText
  }

  /** A three-character pattern starting with '4' occurs in the message for a three-digit
      status only as the numeral itself or inside the status text. */
  lemma {:induction false} DigitPatternInFailedFetch(status: int, statusText: string, p: string)
    requires 100 <= status <= 999
    requires |p| == 3 && p[0] == '4' && ' ' !in p
    ensures Contains(FailedFetchMessage(status, statusText), p)
        <==> (Decimal.IntToString(status) == p || Contains(statusText, p))
  {
    var code := Decimal.IntToString(status);
    assert FailedFetchMessage(status, statusText) == (FailedFetchPrefix + code) + [' '] + statusText;
    ContainsAcrossSeparator(FailedFetchPrefix + code, ' ', statusText, p);
    ContainsOnlyAfter(FailedFetchPrefix, code, p);
    Decimal.ThreeDigitNumeral(status);
    ContainsSameLength(code, p);
  }

  /** The numeral of a status equals a given code's numeral exactly when the status is that
      code. */
  lemma NumeralIs(status: int, code: int, numeral: string)
    requires Decimal.IntToString(code) == numeral
    ensures Decimal.IntToString(status) == numeral <==> status == code
  {
    if Decimal.IntToString(status) == numeral {
      Decimal.IntToStringInjective(status, code);
    }
  }

  /** The category a non-OK response ends in: 401, 403 and 429 have their own, every other
      status is a network error because the message says "fetch". The status text must not
      contain a pattern itself. */
  lemma {:induction false} StatusMessageClassification(status: int, statusText: string)
    requires 100 <= status <= 599
    requires !Contains(statusText, TokenPattern)
    requires !Contains(statusText, "401") && !Contains(statusText, "403") && !Contains(statusText, "429")
    ensures GetErrorWithTips(FailedFetchMessage(status, statusText)) ==
              if status == 401 then AuthenticationFailed
              else if status == 403 then PermissionDenied
              else if status == 429 then RateLimited
              else NetworkError
  {
    FailedFetchWithoutToken(status, statusText);
    FailedFetchSaysFetch(status, statusText);
    DigitPatternInFailedFetch(status, statusText, "401");
    DigitPatternInFailedFetch(status, statusText, "403");
    DigitPatternInFailedFetch(status, statusText, "429");
    NumeralIs(status, 401, "401");
    NumeralIs(status, 403, "403");
    NumeralIs(status, 429, "429");
  }

  /** The prefix of the non-OK message around the word "fetch" and around its first 'h'. */
  lemma PrefixParts()
    ensures FailedFetchPrefix == "Failed to " + "fetch" + " search results: "
    ensures FailedFetchPrefix == "Failed to fetch searc" + ['h'] + " results: "
  {
  }

  /** The token pattern occurs in a non-OK message only through its status text. */
  lemma FailedFetchWithoutToken(status: int, statusText: string)
    ensures Contains(FailedFetchMessage(status, statusText), TokenPattern) <==> Contains(statusText, TokenPattern)
  {
    var code := Decimal.IntToString(status);
    var tail := " results: " + code + " ";
    PrefixParts();
    assert FailedFetchMessage(status, statusText) == "Failed to fetch searc" + ['h'] + (tail + statusText);
    ContainsAcrossSeparator("Failed to fetch searc", 'h', tail + statusText, TokenPattern);
    assert !Contains("Failed to fetch searc", TokenPattern);
    NumeralWithoutLetters(status);
    assert 'a' !in tail;
    ContainsOnlyAfter(tail, statusText, TokenPattern);
  }

  /** A numeral is digits and perhaps a minus sign: no 'a' in it. */
  lemma NumeralWithoutLetters(n: int)
    ensures 'a' !in Decimal.IntToString(n)
  {
    var code := Decimal.IntToString(n);
    assert forall k | 0 <= k < |code| :: code[k] != 'a';
  }

  lemma FailedFetchSaysFetch(status: int, statusText: string)
    ensures Contains(FailedFetchMessage(status, statusText), "fetch")
  {
    var rest := Decimal.IntToString(status) + " " + statusText;
    assert FailedFetchMessage(status, statusText) == FailedFetchPrefix + rest;
    PrefixParts();
    assert OccursAt("fetch", "fetch", 0);
    ContainsInRight("Failed to ", "fetch", "fetch");
    ContainsInLeft("Failed to " + "fetch", " search results: ", "fetch");
    ContainsInLeft(FailedFetchPrefix, rest, "fetch");
  }

  // ---------------------------------------------------------------- component state

  /** A geocoding feature: its id, display name, `[lng, lat]` centre and place types. */
  datatype Place = Place(id: string, placeName: string, center: MapPanel.LngLat, placeType: seq<string>)

  /** The component's state; `pending` is the query the debounce timer will search. */
  datatype State = State(query: string, results: seq<Place>, isLoading: bool, showResults: bool,
                         error: Option<ErrorInfo>, pending: Option<string>)

  const Initial: State := State("", [], false, false, None, None)

  /** The response body as `response.json()` delivers it: `features` possibly absent, or a
      parse failure with its message. */
  datatype Body = Json(features: Option<seq<Place>>) | Malformed(parseError: string)

  /** How the request ends. */
  datatype Outcome =
    | Rejected(thrown: Thrown)
    | Responded(ok: bool, status: int, statusText: string, body: Body)

  /** The configured access token and the request's outcome. */
  datatype Env = Env(accessToken: Option<string>, outcome: Outcome)

  /** `!accessToken` is false only for a defined, non-empty token. */
  predicate HasToken(env: Env) {
    env.accessToken.Some? && env.accessToken.value != ""
  }

  const MinQueryLength: nat := 3

  /** The settled search and whether a request went out. */
  datatype Searched = Searched(state: State, requested: bool)

  /** The `catch`: classify what was thrown, clear the results and hide the dropdown. */
  function Fail(s: State, t: Thrown): (s': State)
    ensures s'.error == Some(GetErrorWithTips(ThrownMessage(t)))
    ensures s'.results == [] && !s'.showResults
    ensures s'.query == s.query && s'.pending == s.pending && s'.isLoading == s.isLoading
  {
    s.(error := Some(GetErrorWithTips(ThrownMessage(t))), results := [], showResults := false)
  }

  /** The thrown value for every way the request fails; `None` when it succeeds. */
  function Failure(env: Env): (t: Option<Thrown>)
    ensures !HasToken(env) ==> t == Some(ErrorObject(MissingTokenMessage))
    ensures HasToken(env) && env.outcome.Rejected? ==> t == Some(env.outcome.thrown)
    ensures HasToken(env) && env.outcome.Responded? && !env.outcome.ok ==>
              t == Some(ErrorObject(FailedFetchMessage(env.outcome.status, env.outcome.statusText)))
    ensures HasToken(env) && env.outcome.Responded? && env.outcome.ok && env.outcome.body.Malformed? ==>
              t == Some(ErrorObject(env.outcome.body.parseError))
    ensures t.None? <==> HasToken(env) && env.outcome.Responded? && env.outcome.ok && env.outcome.body.Json?
  {
    if !HasToken(env) then Some(ErrorObject(MissingTokenMessage))
    else match env.outcome
      case Rejected(thrown) => Some(thrown)
      case Responded(ok, status, statusText, body) =>
        if !ok then Some(ErrorObject(FailedFetchMessage(status, statusText)))
        else match body
          case Malformed(m) => Some(ErrorObject(m))
          case Json(_) => None
  }

  /** `searchLocations`: a query shorter than three UTF-16 units clears the results and hides
      the dropdown without a request; otherwise the error is cleared, the request runs if
      there is a token, and the search settles into results shown or an error, no longer
      loading. */
  function SearchLocations(s: State, q: string, env: Env): (r: Searched)
    ensures Utf16Length(q) < MinQueryLength ==>
              !r.requested && r.state == s.(results := [], showResults := false)
    ensures r.requested <==> Utf16Length(q) >= MinQueryLength && HasToken(env)
    ensures Utf16Length(q) >= MinQueryLength ==> !r.state.isLoading
    ensures Utf16Length(q) >= MinQueryLength && Failure(env).Some? ==>
              && r.state.error == Some(GetErrorWithTips(ThrownMessage(Failure(env).value)))
              && r.state.results == [] && !r.state.showResults
    ensures Utf16Length(q) >= MinQueryLength && Failure(env).None? ==>
              && r.state.results == env.outcome.body.features.GetOr([])
              && r.state.showResults && r.state.error.None?
    ensures r.state.query == s.query && r.state.pending == s.pending
  {
    if Utf16Length(q) < MinQueryLength then Searched(s.(results := [], showResults := false), false)
    else
      var started := s.(isLoading := true, error := None);
      var settled :=
        match Failure(env)
        case Some(t) => Fail(started, t)
        case None => started.(results := env.outcome.body.features.GetOr([]), showResults := true);
      Searched(settled.(isLoading := false), HasToken(env))
  }

  /** A missing or empty token is reported as a configuration error and nothing is fetched. */
  lemma MissingTokenSearch(s: State, q: string, env: Env)
    requires Utf16Length(q) >= MinQueryLength && !HasToken(env)
    ensures var r := SearchLocations(s, q, env);
            !r.requested && r.state.error == Some(ConfigurationError) && !r.state.showResults
  {
    MissingTokenIsConfigurationError();
  }

  /** An error status is reported by its category, per `StatusMessageClassification`. */
  lemma ErrorStatusSearch(s: State, q: string, env: Env)
    requires Utf16Length(q) >= MinQueryLength && HasToken(env)
    requires env.outcome.Responded? && !env.outcome.ok && 100 <= env.outcome.status <= 599
    requires var t := env.outcome.statusText;
             !Contains(t, TokenPattern) && !Contains(t, "401") && !Contains(t, "403") && !Contains(t, "429")
    ensures var r := SearchLocations(s, q, env);
            var st := env.outcome.status;
            r.requested && r.state.error == Some(
              if st == 401 then AuthenticationFailed
              else if st == 403 then PermissionDenied
              else if st == 429 then RateLimited
              else NetworkError)
  {
    StatusMessageClassification(env.outcome.status, env.outcome.statusText);
  }

  // ---------------------------------------------------------------- handlers

  /** `handleInputChange`: the query follows the input, any pending search is cancelled, and
      a value that is not all whitespace schedules a search of its trimmed form; otherwise the
      results are cleared and the dropdown hidden. */
  function HandleInputChange(s: State, value: string): (s': State)
    ensures s'.query == value
    ensures Trim(value) != [] <==> s'.pending == Some(Trim(value))
    ensures Trim(value) == [] ==> s'.pending.None? && s'.results == [] && !s'.showResults
    ensures Trim(value) != [] ==> s' == s.(query := value, pending := Some(Trim(value)))
    ensures s'.error == s.error && s'.isLoading == s.isLoading
  {
    var cancelled := s.(query := value, pending := None);
    if Trim(value) != [] then cancelled.(pending := Some(Trim(value)))
    else cancelled.(results := [], showResults := false)
  }

  /** The debounce timer fires: the scheduled query is searched. */
  function TimerFires(s: State, env: Env): (r: Searched)
    ensures s.pending.None? ==> r == Searched(s, false)
    ensures s.pending.Some? ==> r.state.pending.None? && r.state.query == s.query
    ensures s.pending.Some? ==> r.requested == (Utf16Length(s.pending.value) >= MinQueryLength && HasToken(env))
  {
    match s.pending
    case None => Searched(s, false)
    case Some(q) => SearchLocations(s.(pending := None), q, env)
  }

  /** What the page is told on selection: the place's name and `[lng, lat]` centre. */
  datatype Selection = Selection(name: string, coordinates: MapPanel.LngLat)

  /** `handleResultSelect`: the query becomes the place's name, the dropdown closes, and the
      place is reported. */
  function HandleResultSelect(s: State, place: Place): (r: (State, Selection))
    ensures r.0.query == place.placeName && r.0.results == [] && !r.0.showResults
    ensures r.1.name == place.placeName && r.1.coordinates == place.center
    ensures r.0.error == s.error && r.0.pending == s.pending && r.0.isLoading == s.isLoading
  {
    (s.(query := place.placeName, results := [], showResults := false), Selection(place.placeName, place.center))
  }

  /** `handleSubmit`: search the trimmed query, unless it is blank. */
  function HandleSubmit(s: State, env: Env): (r: Searched)
    ensures Trim(s.query) == [] ==> r == Searched(s, false)
    ensures Trim(s.query) != [] ==> r == SearchLocations(s, Trim(s.query), env)
    ensures r.requested ==> !AllWhitespace(s.query)
  {
    if Trim(s.query) != [] then SearchLocations(s, Trim(s.query), env) else Searched(s, false)
  }

  /** A mouse press outside the input closes the dropdown. */
  function ClickOutside(s: State, insideInput: bool): (s': State)
    ensures insideInput ==> s' == s
    ensures !insideInput ==> !s'.showResults && s' == s.(showResults := false)
  {
    if insideInput then s else s.(showResults := false)
  }

  // ---------------------------------------------------------------- what is rendered

  /** The dropdown condition: shown, and either results or an error to show. */
  predicate DropdownOpen(s: State) {
    s.showResults && (|s.results| > 0 || s.error.Some?)
  }

  /** The dropdown shows the error panel rather than the result list. */
  predicate ErrorPanelShown(s: State) {
    DropdownOpen(s) && s.error.Some?
  }

  // ---------------------------------------------------------------- presses and clicks

  /** Where a press or a click lands: the input, the result button at `index`, or elsewhere. */
  datatype Target = InputBox | ResultButton(index: nat) | Elsewhere

  /** The result buttons are on the page: the dropdown is open and lists results, not an error. */
  predicate ResultsListed(s: State) {
    DropdownOpen(s) && s.error.None?
  }

  /** The document's `mousedown` listener, which counts only the input as inside: a press on a
      result button hides the dropdown, and with it every button. */
  function PressOn(s: State, t: Target): (s': State)
    ensures t.InputBox? ==> s' == s
    ensures !t.InputBox? ==> !s'.showResults
    ensures t.ResultButton? ==> !ResultsListed(s')
    ensures s' == s.(showResults := s'.showResults)
  {
    ClickOutside(s, t.InputBox?)
  }

  /** A `click` as React delivers it: a result's `onClick` runs only while that button is on
      the page. A keyboard activation of a focused button is a click with no press before it. */
  function ClickOn(s: State, t: Target): (r: (State, Option<Selection>))
    ensures r.1.Some? <==> t.ResultButton? && ResultsListed(s) && t.index < |s.results|
    ensures r.1.Some? ==> (r.0, r.1.value) == HandleResultSelect(s, s.results[t.index])
    ensures r.1.None? ==> r.0 == s
  {
    if t.ResultButton? && ResultsListed(s) && t.index < |s.results| then
      var (s', selection) := HandleResultSelect(s, s.results[t.index]);
      (s', Some(selection))
    else (s, None)
  }

  /** A mouse click: the press, React's commit of what it changed, then the click at the same
      place. As written it never selects anything, and leaves the state the press left. */
  function MouseClick(s: State, t: Target): (r: (State, Option<Selection>))
    ensures r.1.None?
    ensures r.0 == PressOn(s, t)
    ensures t.ResultButton? ==> !r.0.showResults && r.0.query == s.query
  {
    ClickOn(PressOn(s, t), t)
  }

  /** The listener as evidently intended: a press inside the component, on the input or in the
      dropdown, is not outside; only a press elsewhere closes the dropdown. */
  function PressOnCorrected(s: State, t: Target): (s': State)
    ensures !t.Elsewhere? ==> s' == s
    ensures t.Elsewhere? ==> s' == PressOn(s, t) && !DropdownOpen(s')
  {
    ClickOutside(s, !t.Elsewhere?)
  }

  /** A mouse click under the corrected listener: a click on a listed result selects it. */
  function MouseClickCorrected(s: State, t: Target): (r: (State, Option<Selection>))
    ensures r.1.Some? <==> t.ResultButton? && ResultsListed(s) && t.index < |s.results|
    ensures r.1.Some? ==> (r.0, r.1.value) == HandleResultSelect(s, s.results[t.index])
    ensures r.1.None? ==> r.0 == PressOnCorrected(s, t)
  {
    ClickOn(PressOnCorrected(s, t), t)
  }

  /** Under the correction a mouse click does what a keyboard activation does on a result, and
      what the listener as written does everywhere else. */
  lemma CorrectedClickAgrees(s: State, t: Target)
    ensures t.ResultButton? ==> MouseClickCorrected(s, t) == ClickOn(s, t)
    ensures !t.ResultButton? ==> MouseClickCorrected(s, t) == MouseClick(s, t)
  {
  }

  /** Results for "London" are listed. The first one, clicked with the mouse, is not selected
      and the dropdown closes; activated from the keyboard, or clicked under the corrected
      listener, it is selected and reported. */
  lemma MouseClickCounterexample()
    ensures var london := Place("place.1", "London", MapPanel.LngLat(-0.1276, 51.5072), ["place"]);
            var s := Initial.(query := "London", results := [london], showResults := true);
            var reported := Selection("London", MapPanel.LngLat(-0.1276, 51.5072));
            && ResultsListed(s)
            && MouseClick(s, ResultButton(0)) == (s.(showResults := false), None)
            && ClickOn(s, ResultButton(0)).1 == Some(reported)
            && MouseClickCorrected(s, ResultButton(0)).1 == Some(reported)
  {
  }

  /** One event: a keystroke, the debounce timer, a submit, or a press or click somewhere. */
  datatype Event =
    | Input(value: string)
    | Fire(env: Env)
    | Submit(env: Env)
    | MouseDown(target: Target)
    | Click(target: Target)

  /** The component's reaction to one event, run to completion. A mouse click on `t` is
      `MouseDown(t)` followed by `Click(t)`. */
  function Step(s: State, e: Event): State {
    match e
    case Input(v) => HandleInputChange(s, v)
    case Fire(env) => TimerFires(s, env).state
    case Submit(env) => HandleSubmit(s, env).state
    case MouseDown(t) => PressOn(s, t)
    case Click(t) => ClickOn(s, t).0
  }

  function Replay(s: State, events: seq<Event>): State
    decreases |events|
  {
    if events == [] then s else Replay(Step(s, events[0]), events[1..])
  }

  /** Whenever an error is recorded the dropdown is hidden, and nothing is loading between
      events. */
  predicate Quiescent(s: State) {
    (s.error.Some? ==> !s.showResults) && !s.isLoading
  }

  lemma StepKeepsQuiescent(s: State, e: Event)
    requires Quiescent(s)
    ensures Quiescent(Step(s, e))
  {
  }

  /** The error panel never appears: from the initial state, after any sequence of events
      handled one at a time, an error and an open dropdown never coincide. */
  lemma {:induction false} ErrorPanelNeverShown(events: seq<Event>)
    ensures Quiescent(Replay(Initial, events))
    ensures !ErrorPanelShown(Replay(Initial, events))
  {
    ReplayKeepsQuiescent(Initial, events);
  }

  lemma {:induction false} ReplayKeepsQuiescent(s: State, events: seq<Event>)
    requires Quiescent(s)
    ensures Quiescent(Replay(s, events))
    decreases |events|
  {
    if events != [] {
      StepKeepsQuiescent(s, events[0]);
      ReplayKeepsQuiescent(Step(s, events[0]), events[1..]);
    }
  }

  /** The failure path with the dropdown left open, so that the error panel can appear. */
  function SearchLocationsShowingErrors(s: State, q: string, env: Env): (r: Searched)
    ensures Utf16Length(q) >= MinQueryLength && Failure(env).Some? ==>
              && ErrorPanelShown(r.state)
              && r.state.error == Some(GetErrorWithTips(ThrownMessage(Failure(env).value)))
              && r.state.results == []
    ensures !(Utf16Length(q) >= MinQueryLength && Failure(env).Some?) ==> r == SearchLocations(s, q, env)
    ensures r.requested == SearchLocations(s, q, env).requested
  {
    var r := SearchLocations(s, q, env);
    if Utf16Length(q) >= MinQueryLength && Failure(env).Some? then
      r.(state := r.state.(showResults := true))
    else r
  }

  /** With the corrected failure path a missing token is shown in the dropdown. */
  lemma MissingTokenShownWhenCorrected(s: State, q: string, env: Env)
    requires Utf16Length(q) >= MinQueryLength && !HasToken(env)
    ensures var r := SearchLocationsShowingErrors(s, q, env);
            ErrorPanelShown(r.state) && r.state.error == Some(ConfigurationError)
  {
    MissingTokenIsConfigurationError();
  }
}
