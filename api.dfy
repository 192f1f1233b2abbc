/** The stateful side of the lookup engine: TIMETABLE and NON_STOPS as the
    fields of one object (the source keeps them in two process-wide mutexed
    statics), and the source's functions as methods that read and update them.
    Every method is proved against the matching step function of LookupSpec. */
module Api {
  import opened Wrappers
  import opened TagPattern
  import opened Classifier
  import opened Freshness
  import opened LookupSpec

  class BusTracker {
    var timetable: map<string, Record>
    var nonStops: set<string>

    /** The two structures as a value. */
    function Snapshot(): State
      reads this
    {
      State(timetable, nonStops)
    }

    /** Both structures start empty (the `lazy_static!` initialisers). */
    constructor ()
      ensures Snapshot() == State(map[], {})
    {
      timetable := map[];
      nonStops := {};
    }

    /** `handle_predictions`. */
    method HandlePredictions(stopId: string, xml: string, now: int) returns (out: Reply)
      modifies this
      ensures Step(out, Snapshot()) == PredictionsStep(old(Snapshot()), stopId, xml, now)
    {
      var stopName := GetStopName(xml);
      if stopName.None? {
        return Panic(NoStopNameMatch);
      }
      var arrivalTimes := GetArrivalTimes(xml);
      var result := stopName.value + NameSeparator + arrivalTimes;
      timetable := timetable[stopId := NewRecord(result, now)];
      out := Text(result);
    }

    /** `handle_message`. */
    method HandleMessage(stopId: string, xml: string, now: int) returns (out: Reply)
      modifies this
      ensures Step(out, Snapshot()) == MessageStep(old(Snapshot()), stopId, xml, now)
    {
      var message := MessageText(xml);
      if message.None? {
        return Panic(NoMessageMatch);
      }
      if IsNoDataMessage(message.value) {
        nonStops := nonStops + {stopId};
        out := Text(NotAValidStopId);
      } else {
        timetable := timetable[stopId := NewRecord(message.value, now)];
        out := Text(message.value);
      }
    }

    /** `handle_response`. */
    method HandleResponse(stopId: string, response: Response, now: int) returns (out: Reply)
      modifies this
      ensures Step(out, Snapshot()) == ResponseStep(old(Snapshot()), stopId, response, now)
    {
      if response.text.None? {
        return Panic(UnreadableBody);
      }
      var xml := response.text.value;
      if ContainsTags(xml, PredictionTag) {
        out := HandlePredictions(stopId, xml, now);
      } else if ContainsTags(xml, MessageTag) {
        out := HandleMessage(stopId, xml, now);
      } else {
        out := Text(UnknownResponseFormat);
      }
    }

    /** `request_arrival_times`. */
    method RequestArrivalTimes(stopId: string, env: Environment, now: int) returns (out: Reply)
      modifies this
      ensures Step(out, Snapshot()) == RequestStep(old(Snapshot()), stopId, env, now)
    {
      if env.apiKey.None? {
        return Panic(MissingApiKey);
      }
      var url := ConstructUrl(env.apiKey.value, stopId);
      var sendResult := env.send(url);
      match sendResult
      case Sent(response) =>
        out := HandleResponse(stopId, response, now);
      case SendFailed =>
        out := Text(SendErrorText);
    }

    /** `is_known_non_stop`. */
    method IsKnownNonStop(stopId: string) returns (known: bool)
      ensures known <==> stopId in nonStops
    {
      known := stopId in nonStops;
    }

    /** `is_recent_timetable_entry`: a flag raised only when an entry exists and is recent. */
    method IsRecentTimetableEntry(stopId: string, now: int) returns (useTimetable: bool)
      ensures useTimetable <==> stopId in timetable && now - timetable[stopId].timestamp < FreshnessWindowSeconds * NanosPerSecond
    {
      useTimetable := false;
      if stopId in timetable {
        var lastRecord := timetable[stopId];
        if IsRecent(lastRecord.timestamp, now) {
          useTimetable := true;
        }
      }
      if stopId in timetable {
        IsRecentExact(timetable[stopId].timestamp, now);
      }
    }

    /** `read_timetable_entry`: the stored string, or the `unwrap` panic when there is no entry. */
    method ReadTimetableEntry(stopId: string) returns (out: Reply)
      ensures stopId in timetable ==> out == Text(timetable[stopId].arrivalTimes)
      ensures stopId !in timetable ==> out == Panic(MissingTimetableEntry)
    {
      if stopId !in timetable {
        return Panic(MissingTimetableEntry);
      }
      out := Text(timetable[stopId].arrivalTimes);
    }

    /** `run`: the public entry point. A sequential run never reaches the panic
        of `read_timetable_entry`, since the freshness test saw the entry. */
    method Run(stopId: string, checkedAt: int, env: Environment, recordedAt: int) returns (out: Reply)
      modifies this
      ensures Step(out, Snapshot()) == Lookup(old(Snapshot()), stopId, checkedAt, env, recordedAt)
      ensures out != Panic(MissingTimetableEntry)
    {
      var recent := IsRecentTimetableEntry(stopId, checkedAt);
      IsRecentExact(if stopId in timetable then timetable[stopId].timestamp else 0, checkedAt);
      if recent {
        out := ReadTimetableEntry(stopId);
      } else {
        var known := IsKnownNonStop(stopId);
        if known {
          out := Text(NotAValidStopId);
        } else {
          out := RequestArrivalTimes(stopId, env, recordedAt);
        }
      }
    }
  }
}
