/** The lookup engine as pure state transitions. `State` holds the two
    process-wide structures (TIMETABLE and NON_STOPS); each step function says
    what one source function returns and what it leaves in the state. The class
    in module Api is proved against these functions, and the lemmas here state
    what the engine promises across calls. */
module LookupSpec {
  import opened Wrappers
  import opened Text
  import opened Classifier
  import opened Freshness

  /** `Record`: a result string and the clock reading at which it was stored. */
  datatype Record = Record(timestamp: int, arrivalTimes: string)

  /** TIMETABLE maps a stop id to its last record; NON_STOPS holds the ids the API rejected. */
  datatype State = State(timetable: map<string, Record>, nonStops: set<string>)

  /** Where the source panics instead of returning a string. */
  datatype PanicSite =
    | MissingApiKey          // `env::var(...).expect` in construct_url
    | UnreadableBody         // `response.text().expect` in handle_response
    | NoStopNameMatch        // `captures(xml).unwrap()` in get_stop_name
    | NoMessageMatch         // `captures(xml).unwrap()` in handle_message
    | MissingTimetableEntry  // `map.get(stop_id).unwrap()` in read_timetable_entry

  datatype Reply = Text(text: string) | Panic(site: PanicSite)

  /** What one call returns together with the state it leaves. */
  datatype Step = Step(reply: Reply, state: State)

  /** A received response; `text` is `None` when the body cannot be decoded. */
  datatype Response = Response(text: Option<string>)
  datatype SendResult = Sent(response: Response) | SendFailed

  /** The outside world of one lookup: the BUSPLUG_API_KEY variable and the
      HTTP client, as the outcome of sending a GET request to a URL. */
  datatype Environment = Environment(apiKey: Option<string>, send: string -> SendResult)

  const NotAValidStopId := "Not a valid stop id"
  const UnknownResponseFormat := "Unknown response format"
  const SendErrorText := "There was an error sending the request"
  /** Separates the stop name from the arrival summary in a predictions result. */
  const NameSeparator := "  -  "
  const UrlBase := "http://www.ctabustracker.com/bustime/api/v2/getpredictions?key="
  const StopIdParam := "&stpid="

  /** `record`: stamps a result with the clock reading taken when it is stored;
      the record is then fresh for exactly the next 60 seconds. */
  function NewRecord(arrivalTimes: string, now: int): (r: Record)
    ensures r.arrivalTimes == arrivalTimes
    ensures forall t :: now <= t < now + FreshnessWindowSeconds * NanosPerSecond ==> IsRecent(r.timestamp, t)
    ensures forall t :: now + FreshnessWindowSeconds * NanosPerSecond <= t ==> !IsRecent(r.timestamp, t)
  {
    forall t ensures IsRecent(now, t) <==> t - now < FreshnessWindowSeconds * NanosPerSecond {
      IsRecentExact(now, t);
    }
    Record(now, arrivalTimes)
  }

  /** `construct_url`: the query carries the key first and the stop id last. */
  function ConstructUrl(apiKey: string, stopId: string): (url: string)
    ensures |url| == |UrlBase| + |apiKey| + |StopIdParam| + |stopId|
    ensures IsAt(url, UrlBase, 0)
    ensures url[|UrlBase|..|UrlBase| + |apiKey|] == apiKey
    ensures IsAt(url, StopIdParam, |UrlBase| + |apiKey|)
    ensures url[|url| - |stopId|..] == stopId
  {
    UrlBase + apiKey + StopIdParam + stopId
  }

  /** With one key, distinct stops are asked for with distinct requests. */
  lemma ConstructUrlInjective(apiKey: string, a: string, b: string)
    requires ConstructUrl(apiKey, a) == ConstructUrl(apiKey, b)
    ensures a == b
  {
    var u := ConstructUrl(apiKey, a);
    assert |a| == |b|;
    assert a == u[|u| - |a|..] == b;
  }

  /** `handle_predictions`: "<stop name>  -  <arrival summary>", stored under the stop id. */
  function PredictionsStep(st: State, stopId: string, xml: string, now: int): (r: Step)
    ensures r.state.nonStops == st.nonStops
    ensures r.reply.Panic? <==> GetStopName(xml).None?
    ensures r.reply.Panic? ==> r.state == st
    ensures r.reply.Text? ==> r.state.timetable == st.timetable[stopId := Record(now, r.reply.text)]
  {
    match GetStopName(xml)
    case None => Step(Panic(NoStopNameMatch), st)
    case Some(name) =>
      var result := name + NameSeparator + ArrivalTimes(xml);
      Step(Text(result), st.(timetable := st.timetable[stopId := NewRecord(result, now)]))
  }

  /** `handle_message`: a "no data found" message blocks the stop; any other
      message is stored and returned verbatim. */
  function MessageStep(st: State, stopId: string, xml: string, now: int): (r: Step)
    ensures r.reply.Panic? <==> MessageText(xml).None?
    ensures r.reply.Panic? ==> r.state == st
    ensures r.state.timetable == st.timetable || r.state.nonStops == st.nonStops
  {
    match MessageText(xml)
    case None => Step(Panic(NoMessageMatch), st)
    case Some(message) =>
      if IsNoDataMessage(message) then
        Step(Text(NotAValidStopId), st.(nonStops := st.nonStops + {stopId}))
      else
        Step(Text(message), st.(timetable := st.timetable[stopId := NewRecord(message, now)]))
  }

  /** `handle_response`: predictions are tested first, then a message; anything else is unknown. */
  function ResponseStep(st: State, stopId: string, response: Response, now: int): Step {
    match response.text
    case None => Step(Panic(UnreadableBody), st)
    case Some(xml) =>
      if ContainsTags(xml, PredictionTag) then PredictionsStep(st, stopId, xml, now)
      else if ContainsTags(xml, MessageTag) then MessageStep(st, stopId, xml, now)
      else Step(Text(UnknownResponseFormat), st)
  }

  /** `request_arrival_times`: build the URL, send once, classify what came back. */
  function RequestStep(st: State, stopId: string, env: Environment, now: int): Step {
    match env.apiKey
    case None => Step(Panic(MissingApiKey), st)
    case Some(key) =>
      match env.send(ConstructUrl(key, stopId))
      case SendFailed => Step(Text(SendErrorText), st)
      case Sent(response) => ResponseStep(st, stopId, response, now)
  }

  /** `is_recent_timetable_entry`. */
  predicate IsFreshEntry(st: State, stopId: string, now: int) {
    stopId in st.timetable && IsRecent(st.timetable[stopId].timestamp, now)
  }

  /** `run`: the clock is read at `checkedAt` for the freshness test and at
      `recordedAt` when a fetched result is stored. */
  function Lookup(st: State, stopId: string, checkedAt: int, env: Environment, recordedAt: int): Step {
    if IsFreshEntry(st, stopId, checkedAt) then Step(Text(st.timetable[stopId].arrivalTimes), st)
    else if stopId in st.nonStops then Step(Text(NotAValidStopId), st)
    else RequestStep(st, stopId, env, recordedAt)
  }
}
