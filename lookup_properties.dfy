/** What the lookup engine promises across one or many calls, proved about the
    step functions of LookupSpec. */
module LookupProperties {
  import opened Wrappers
  import opened Text
  import opened TagPattern
  import opened Classifier
  import opened Freshness
  import opened LookupSpec

  /** A predictions result holds the stop name, the separator right after it,
      and the arrival summary as the rest. */
  lemma PredictionsReplyShape(st: State, stopId: string, xml: string, now: int)
    requires GetStopName(xml).Some?
    ensures var r := PredictionsStep(st, stopId, xml, now).reply;
            var name := GetStopName(xml).value;
            && r.Text?
            && r.text[..|name|] == name
            && IsAt(r.text, NameSeparator, |name|)
            && r.text[|name| + |NameSeparator|..] == ArrivalTimes(xml)
  {
    var name := GetStopName(xml).value;
    var text := name + NameSeparator + ArrivalTimes(xml);
    assert text[|name|..|name| + |NameSeparator|] == NameSeparator;
  }

  /** The two outcomes of a readable message: a "no data found" message adds the
      stop to NON_STOPS and leaves TIMETABLE alone; any other message is stored
      as it is and leaves NON_STOPS alone. */
  lemma MessageStepOutcomes(st: State, stopId: string, xml: string, now: int)
    requires MessageText(xml).Some?
    ensures var m := MessageText(xml).value;
            var r := MessageStep(st, stopId, xml, now);
            && (IsNoDataMessage(m) ==>
                  r.reply == Text(NotAValidStopId)
                  && r.state.timetable == st.timetable
                  && r.state.nonStops == st.nonStops + {stopId})
            && (!IsNoDataMessage(m) ==>
                  r.reply == Text(m)
                  && r.state.nonStops == st.nonStops
                  && r.state.timetable == st.timetable[stopId := Record(now, m)])
  {
  }

  /** Predictions are tested before messages, and a body with neither tag pair
      changes nothing. */
  lemma ResponseDispatch(st: State, stopId: string, xml: string, now: int)
    ensures var r := ResponseStep(st, stopId, Response(Some(xml)), now);
            && (ContainsTags(xml, PredictionTag) ==> r == PredictionsStep(st, stopId, xml, now))
            && (!ContainsTags(xml, PredictionTag) && ContainsTags(xml, MessageTag) ==>
                  r == MessageStep(st, stopId, xml, now))
            && (!ContainsTags(xml, PredictionTag) && !ContainsTags(xml, MessageTag) ==>
                  r == Step(Text(UnknownResponseFormat), st))
  {
  }

  /** A failed send is reported with the fixed error string and changes nothing. */
  lemma SendFailureChangesNothing(st: State, stopId: string, env: Environment, now: int)
    requires env.apiKey.Some? && env.send(ConstructUrl(env.apiKey.value, stopId)) == SendFailed
    ensures RequestStep(st, stopId, env, now) == Step(Text(SendErrorText), st)
  {
  }

  /** The order of `run`: a fresh entry wins, then the blocklist, and only then a fetch. */
  lemma LookupDecision(st: State, stopId: string, checkedAt: int, env: Environment, recordedAt: int)
    ensures var r := Lookup(st, stopId, checkedAt, env, recordedAt);
            && (IsFreshEntry(st, stopId, checkedAt) ==>
                  r == Step(Text(st.timetable[stopId].arrivalTimes), st))
            && (!IsFreshEntry(st, stopId, checkedAt) && stopId in st.nonStops ==>
                  r == Step(Text(NotAValidStopId), st))
            && (!IsFreshEntry(st, stopId, checkedAt) && stopId !in st.nonStops ==>
                  r == RequestStep(st, stopId, env, recordedAt))
  {
  }

  /** A cache hit and a blocked stop consult neither the API key nor the network:
      the outcome is the same whatever they would have given. */
  lemma LookupWithoutFetch(st: State, stopId: string, checkedAt: int,
                           env1: Environment, recordedAt1: int, env2: Environment, recordedAt2: int)
    requires IsFreshEntry(st, stopId, checkedAt) || stopId in st.nonStops
    ensures Lookup(st, stopId, checkedAt, env1, recordedAt1) == Lookup(st, stopId, checkedAt, env2, recordedAt2)
  {
  }

  /** The freshness window at its boundary: within 60 s of the stored timestamp the
      entry is served; from 60 s on, an unblocked stop is fetched again. */
  lemma FreshnessBoundary(st: State, stopId: string, checkedAt: int, env: Environment, recordedAt: int)
    requires stopId in st.timetable
    ensures var ts := st.timetable[stopId].timestamp;
            && (ts <= checkedAt < ts + FreshnessWindowSeconds * NanosPerSecond ==>
                  Lookup(st, stopId, checkedAt, env, recordedAt) == Step(Text(st.timetable[stopId].arrivalTimes), st))
            && (ts + FreshnessWindowSeconds * NanosPerSecond <= checkedAt && stopId !in st.nonStops ==>
                  Lookup(st, stopId, checkedAt, env, recordedAt) == RequestStep(st, stopId, env, recordedAt))
  {
    IsRecentExact(st.timetable[stopId].timestamp, checkedAt);
  }

  /** The only ways one call can change the state: not at all, by storing its own
      reply under the stop id with the write-time clock, or by blocking the stop. */
  ghost predicate WriteShape(st: State, r: Step, stopId: string, recordedAt: int) {
    || r.state == st
    || (r.reply.Text? && r.state == st.(timetable := st.timetable[stopId := Record(recordedAt, r.reply.text)]))
    || (r.reply == Text(NotAValidStopId) && r.state == st.(nonStops := st.nonStops + {stopId}))
  }

  lemma RequestStepShape(st: State, stopId: string, env: Environment, recordedAt: int)
    ensures WriteShape(st, RequestStep(st, stopId, env, recordedAt), stopId, recordedAt)
  {
    match env.apiKey
    case None =>
    case Some(key) =>
      match env.send(ConstructUrl(key, stopId))
      case SendFailed =>
      case Sent(response) =>
        match response.text
        case None =>
        case Some(xml) =>
          if !ContainsTags(xml, PredictionTag) && ContainsTags(xml, MessageTag) && MessageText(xml).Some? {
            MessageStepOutcomes(st, stopId, xml, recordedAt);
          }
  }

  lemma LookupShape(st: State, stopId: string, checkedAt: int, env: Environment, recordedAt: int)
    ensures WriteShape(st, Lookup(st, stopId, checkedAt, env, recordedAt), stopId, recordedAt)
  {
    RequestStepShape(st, stopId, env, recordedAt);
  }

  /** The frame of one lookup: NON_STOPS only grows, and at most by the looked-up id;
      TIMETABLE keys are only added or overwritten, and only under that id; the
      two structures are never both changed by one call. */
  lemma LookupFrame(st: State, stopId: string, checkedAt: int, env: Environment, recordedAt: int)
    ensures var s := Lookup(st, stopId, checkedAt, env, recordedAt).state;
            && st.nonStops <= s.nonStops <= st.nonStops + {stopId}
            && st.timetable.Keys <= s.timetable.Keys <= st.timetable.Keys + {stopId}
            && (forall k :: k in st.timetable && k != stopId ==> s.timetable[k] == st.timetable[k])
            && (s.timetable == st.timetable || s.nonStops == st.nonStops)
  {
    LookupShape(st, stopId, checkedAt, env, recordedAt);
  }

  /** A fetch's reply does not depend on what was cached before: the stored value
      is overwritten, never accumulated. */
  lemma RequestReplyIgnoresState(st1: State, st2: State, stopId: string, env: Environment, recordedAt: int)
    ensures RequestStep(st1, stopId, env, recordedAt).reply == RequestStep(st2, stopId, env, recordedAt).reply
  {
  }

  lemma PredictionsStepIdempotent(st: State, stopId: string, xml: string, recordedAt1: int, recordedAt2: int)
    ensures PredictionsStep(PredictionsStep(st, stopId, xml, recordedAt1).state, stopId, xml, recordedAt2)
         == PredictionsStep(st, stopId, xml, recordedAt2)
  {
    match GetStopName(xml)
    case None =>
    case Some(name) =>
      var result := name + NameSeparator + ArrivalTimes(xml);
      var m := st.timetable;
      assert m[stopId := Record(recordedAt1, result)][stopId := Record(recordedAt2, result)]
          == m[stopId := Record(recordedAt2, result)];
  }

  lemma MessageStepIdempotent(st: State, stopId: string, xml: string, recordedAt1: int, recordedAt2: int)
    ensures MessageStep(MessageStep(st, stopId, xml, recordedAt1).state, stopId, xml, recordedAt2)
         == MessageStep(st, stopId, xml, recordedAt2)
  {
    match MessageText(xml)
    case None =>
    case Some(message) =>
      var m := st.timetable;
      assert m[stopId := Record(recordedAt1, message)][stopId := Record(recordedAt2, message)]
          == m[stopId := Record(recordedAt2, message)];
  }

  /** Classifying the same body twice leaves the state as classifying it once,
      with the later write time. */
  lemma ResponseStepIdempotent(st: State, stopId: string, response: Response, recordedAt1: int, recordedAt2: int)
    ensures ResponseStep(ResponseStep(st, stopId, response, recordedAt1).state, stopId, response, recordedAt2)
         == ResponseStep(st, stopId, response, recordedAt2)
  {
    match response.text
    case None =>
    case Some(xml) =>
      if ContainsTags(xml, PredictionTag) {
        PredictionsStepIdempotent(st, stopId, xml, recordedAt1, recordedAt2);
      } else if ContainsTags(xml, MessageTag) {
        MessageStepIdempotent(st, stopId, xml, recordedAt1, recordedAt2);
      }
  }

  /** Repeating a fetch with the same outcome leaves the state as one fetch does
      (only the timestamp moves to the later write): arrival summaries never
      accumulate across refreshes. */
  lemma RequestStepIdempotent(st: State, stopId: string, env: Environment, recordedAt1: int, recordedAt2: int)
    ensures RequestStep(RequestStep(st, stopId, env, recordedAt1).state, stopId, env, recordedAt2)
         == RequestStep(st, stopId, env, recordedAt2)
  {
    match env.apiKey
    case None =>
    case Some(key) =>
      match env.send(ConstructUrl(key, stopId))
      case SendFailed =>
      case Sent(response) => ResponseStepIdempotent(st, stopId, response, recordedAt1, recordedAt2);
  }

  /** A result that a fetch stored is what the next lookups within 60 seconds of
      the write return, without fetching and without changing anything. */
  lemma StoredResultIsServed(st: State, stopId: string, checkedAt: int, env: Environment, recordedAt: int,
                             laterCheck: int, laterEnv: Environment, laterRecord: int)
    requires Lookup(st, stopId, checkedAt, env, recordedAt).state.timetable != st.timetable
    requires recordedAt <= laterCheck < recordedAt + FreshnessWindowSeconds * NanosPerSecond
    ensures var first := Lookup(st, stopId, checkedAt, env, recordedAt);
            Lookup(first.state, stopId, laterCheck, laterEnv, laterRecord) == Step(first.reply, first.state)
  {
    LookupShape(st, stopId, checkedAt, env, recordedAt);
    IsRecentExact(recordedAt, laterCheck);
  }

  /** Every blocked stop whose timetable entry exists is stale at time `t`. */
  ghost predicate BlockedAreStale(st: State, t: int) {
    forall id :: id in st.nonStops && id in st.timetable ==> !IsRecent(st.timetable[id].timestamp, t)
  }

  /** With a clock that does not run backwards, one lookup keeps the blocked stops stale. */
  lemma LookupKeepsBlockedStale(st: State, t: int, stopId: string, checkedAt: int, env: Environment, recordedAt: int)
    requires BlockedAreStale(st, t) && t <= checkedAt
    ensures BlockedAreStale(Lookup(st, stopId, checkedAt, env, recordedAt).state, checkedAt)
  {
    var s := Lookup(st, stopId, checkedAt, env, recordedAt).state;
    LookupShape(st, stopId, checkedAt, env, recordedAt);
    forall id | id in s.nonStops && id in s.timetable
      ensures !IsRecent(s.timetable[id].timestamp, checkedAt)
    {
      if id in st.nonStops && id in st.timetable && s.timetable[id] == st.timetable[id] {
        StaleStaysStale(st.timetable[id].timestamp, t, checkedAt);
      }
    }
  }

  /** A blocked stop with a stale entry is answered from the blocklist, unchanged state. */
  lemma BlockedShortCircuits(st: State, t: int, stopId: string, checkedAt: int, env: Environment, recordedAt: int)
    requires BlockedAreStale(st, t) && t <= checkedAt && stopId in st.nonStops
    ensures Lookup(st, stopId, checkedAt, env, recordedAt) == Step(Text(NotAValidStopId), st)
  {
    if stopId in st.timetable {
      StaleStaysStale(st.timetable[stopId].timestamp, t, checkedAt);
    }
  }

  /** One call of `run` in a sequence of calls. */
  datatype Call = Call(stopId: string, checkedAt: int, env: Environment, recordedAt: int)

  /** The replies of successive calls, each made in the state the previous one left. */
  function LookupAll(st: State, calls: seq<Call>): (r: (seq<Reply>, State))
    ensures |r.0| == |calls|
    decreases |calls|
  {
    if calls == [] then ([], st)
    else
      var first := Lookup(st, calls[0].stopId, calls[0].checkedAt, calls[0].env, calls[0].recordedAt);
      var rest := LookupAll(first.state, calls[1..]);
      ([first.reply] + rest.0, rest.1)
  }

  /** Clock readings taken for the freshness test never go backwards and start at `t` or later. */
  ghost predicate ClockFrom(t: int, calls: seq<Call>) {
    && (forall i :: 0 <= i < |calls| ==> t <= calls[i].checkedAt)
    && (forall i, j :: 0 <= i < j < |calls| ==> calls[i].checkedAt <= calls[j].checkedAt)
  }

  /** Blocklist permanence: once a stop is blocked (and its entry, if any, is
      stale), every later call for it answers "Not a valid stop id", and it
      stays blocked, for as long as the process runs. */
  lemma {:induction false} BlocklistPermanent(st: State, t: int, stopId: string, calls: seq<Call>)
    requires BlockedAreStale(st, t) && stopId in st.nonStops
    requires ClockFrom(t, calls)
    ensures stopId in LookupAll(st, calls).1.nonStops
    ensures forall i :: 0 <= i < |calls| && calls[i].stopId == stopId ==>
              LookupAll(st, calls).0[i] == Text(NotAValidStopId)
    decreases |calls|
  {
    if calls != [] {
      var c := calls[0];
      var first := Lookup(st, c.stopId, c.checkedAt, c.env, c.recordedAt);
      LookupKeepsBlockedStale(st, t, c.stopId, c.checkedAt, c.env, c.recordedAt);
      LookupFrame(st, c.stopId, c.checkedAt, c.env, c.recordedAt);
      if c.stopId == stopId {
        BlockedShortCircuits(st, t, stopId, c.checkedAt, c.env, c.recordedAt);
      }
      ClockFromRest(t, calls);
      BlocklistPermanent(first.state, c.checkedAt, stopId, calls[1..]);
      var all := LookupAll(st, calls);
      var rest := LookupAll(first.state, calls[1..]);
      assert all.0 == [first.reply] + rest.0;
      forall i | 0 <= i < |calls| && calls[i].stopId == stopId ensures all.0[i] == Text(NotAValidStopId) {
        if i > 0 { assert calls[i] == calls[1..][i - 1]; }
      }
    }
  }

  /** A clock that does not run backwards from `t` still does so from the first call's reading. */
  lemma ClockFromRest(t: int, calls: seq<Call>)
    requires ClockFrom(t, calls) && calls != []
    ensures ClockFrom(calls[0].checkedAt, calls[1..])
  {
    var c := calls[0];
    forall i | 0 <= i < |calls[1..]| ensures c.checkedAt <= calls[1..][i].checkedAt {
      assert calls[1..][i] == calls[i + 1];
    }
    forall i, j | 0 <= i < j < |calls[1..]| ensures calls[1..][i].checkedAt <= calls[1..][j].checkedAt {
      assert calls[1..][i] == calls[i + 1] && calls[1..][j] == calls[j + 1];
    }
  }

  /** Over a whole run with a clock that does not run backwards, the blocked
      stops' entries stay stale: the invariant holds at the last reading. */
  lemma {:induction false} RunKeepsBlockedStale(st: State, t: int, calls: seq<Call>)
    requires BlockedAreStale(st, t) && ClockFrom(t, calls) && |calls| > 0
    ensures BlockedAreStale(LookupAll(st, calls).1, calls[|calls| - 1].checkedAt)
    decreases |calls|
  {
    var c := calls[0];
    var first := Lookup(st, c.stopId, c.checkedAt, c.env, c.recordedAt);
    LookupKeepsBlockedStale(st, t, c.stopId, c.checkedAt, c.env, c.recordedAt);
    if |calls| > 1 {
      ClockFromRest(t, calls);
      RunKeepsBlockedStale(first.state, c.checkedAt, calls[1..]);
      assert calls[1..][|calls[1..]| - 1] == calls[|calls| - 1];
    }
  }

  /** The process starts with both structures empty, which satisfies the invariant at any time. */
  lemma StartStateBlockedAreStale(t: int)
    ensures BlockedAreStale(State(map[], {}), t)
  {
  }
}
