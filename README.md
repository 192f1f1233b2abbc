# busplug stop-arrival lookup, modelled in Dafny

busplug answers "when is the next bus at stop N?" by asking the CTA Bus
Tracker predictions API. The core, `src/api.rs`, is a small lookup engine:

- a **classifier** for the XML body the API returns. `contains_tags` picks
  the branch. Three fixed regexes, `<stpnm>(.*)</stpnm>`, `<prdctdn>(.*)</prdctdn>`
  and `<msg>(.*)</msg>`, pull out the stop name, the arrival predictions and
  the message. `&amp;` is unescaped to `&`.
- two process-wide structures: **TIMETABLE** maps a stop id to its last
  result and the time it was stored, and **NON_STOPS** is the set of stop ids
  the API called invalid.
- an **orchestrator**, `run`. It serves a cached result younger than 60
  seconds, else answers "Not a valid stop id" for a blocked stop, else fetches
  and classifies a fresh response.

The project has these files:

| file | module | what it holds |
|---|---|---|
| `wrappers.dfy` | `Wrappers` | `Option` |
| `text.dfy` | `Text` | substring search, line ends, the `&amp;` replacement with its inverse and splice lemmas, ASCII lower-casing |
| `tag_pattern.dfy` | `TagPattern` | the exact meaning of `<tag>(.*)</tag>` under the regex crate's leftmost-first, greedy, line-bound semantics (`CaptureAt`, `IsFirstMatch`), a search `FindFrom` proved to meet it, `captures` and `captures_iter` |
| `tag_locality.dfy` | `TagLocality` | where matches fall in texts built of element lines; an element followed by a newline or by the end of the text is matched whole; two elements on one line give ONE match |
| `classifier.dfy` | `Classifier` | `get_stop_name`, the message extraction, `get_arrival_times` (a loop), `contains_tags`, the "no data found" test |
| `freshness.dfy` | `Freshness` | `is_recent` with chrono's truncating `num_seconds`, on nanosecond clock readings |
| `lookup_spec.dfy` | `LookupSpec` | each stateful source function as a pure step `State -> (Reply, State)` |
| `lookup_properties.dfy` | `LookupProperties` | what the engine promises across one or many calls |
| `api.dfy` | `Api` | `class BusTracker` with the `timetable` map and the `nonStops` set as fields. Its methods follow the source statement by statement and are proved equal to the step functions |
| `scenarios.dfy` | `Scenarios` | concrete responses: a split message element that passes `contains_tags` but panics, an unescaped stop name, and the two message outcomes |

Modelling decisions:

- **Panics are outcomes.** `Reply = Text(string) | Panic(site)`. These are the
  sites:
  - the `unwrap` of a missing `<stpnm>` match (`src/api.rs:54`) or `<msg>` match (`src/api.rs:93`);
  - the `expect` on an undecodable body (`src/api.rs:114`);
  - the `expect` on a missing API key (`src/api.rs:41`);
  - the `unwrap` in `read_timetable_entry` (`src/api.rs:166`). `BusTracker.Run` proves that a sequential run never reaches this one.

  Passing `contains_tags` only says both tags occur *somewhere*. It does not
  mean the regex matches, so the first two panics are reachable
  (`Scenarios.TagsWithoutMatch`).
- **The regex is modelled exactly for these patterns.** In the regex crate
  `.` does not match `\n` and `(.*)` is greedy. So a match starts at the
  leftmost `<tag>` that has a `</tag>` later on the same line, and group 1
  runs to the LAST `</tag>` on that line. `captures_iter` resumes at the end
  of each match, which gives at most one match per line.
- **The environment is parameters.**
  - The `BUSPLUG_API_KEY` variable is `apiKey: Option<string>`.
  - The HTTP client is a function `send: string -> SendResult` from the URL to
    `Sent(Response(Some(body)))`, `Sent(Response(None))` for an undecodable
    body, or `SendFailed`.
  - `Utc::now()` is an integer number of nanoseconds. `run` reads it twice:
    `checkedAt` for `is_recent` and `recordedAt` when `record` stamps a new
    entry.

Facts about the code that a reader may not expect:

- A reader may expect `<prdctdn>4 min</prdctdn><prdctdn>12 min</prdctdn>` on
  one line to give `4 min...12 min...`. Since group 1 is greedy, that line
  gives ONE capture, `4 min</prdctdn><prdctdn>12 min`
  (`TagLocality.TwoElementsOneMatch`). One capture per element needs the
  elements on lines of their own, which is how the API formats its XML.
- Five sites panic instead of returning an error string: a missing API key,
  an unreadable body, a missing stop name, a missing message and a missing
  timetable entry in `read_timetable_entry`.
- The predictions result contains `"  -  "` after the stop name. If the stop
  name itself contains that string, the separator occurs more than once. The
  model states where the separator is (`LookupProperties.PredictionsReplyShape`),
  not that it occurs once.
- Blocklist permanence holds for a fresh cache entry only once that entry
  goes stale, because `run` tests freshness before the blocklist. With the
  clock not running backwards, every blocked stop's entry is stale, and
  from then on every lookup of that stop answers "Not a valid stop id"
  (`LookupProperties.BlocklistPermanent`).

## Model

| member | source | states |
|---|---|---|
| Text.Contains | src/api.rs:75 | `str::contains` holds exactly when the pattern occurs at some position |
| Text.UnescapeAmp | src/api.rs:56 | `replace("&amp;", "&")`, scanning left to right with no overlap; pinned down by `Text.UnescapeEscape`, `Text.UnescapeWithoutEntity` and `Text.UnescapeSplice` |
| Text.ToLowerAscii | src/api.rs:98 | `to_lowercase` on ASCII keeps the length, lower-cases each character in place, and leaves no upper-case letter |
| Text.UnescapeEscape | src/api.rs:56 | the `&amp;` replacement undoes escaping every `&`, so any `&` the API escaped comes back |
| Text.UnescapeWithoutEntity | src/api.rs:56 | a text without `&amp;` is returned unchanged by the replacement |
| Text.UnescapeSplice | src/api.rs:56 | an entity after an entity-free prefix becomes one `&` and the rest is unescaped independently: each entity is replaced and nothing else moves |
| TagPattern.LastClose | src/api.rs:54 | finds the last closing tag at or before a bound, or reports that none lies in the range |
| TagPattern.CloseWithinLine | src/api.rs:54 | a closing tag that ends a match lies within the line of the opening tag |
| TagPattern.FindFrom | src/api.rs:65 | the search returns the leftmost, greedy, same-line match at or after `from` (`IsFirstMatch`), or nothing exactly when no match starts there |
| TagPattern.CapturesFrom | src/api.rs:65 | `captures_iter` as the list of group 1 of each `FindFrom` match, the next search resuming at the previous match's end; pinned down by `FindFrom`'s contract, `TagLocality.CapturesFromSome`, `TagLocality.CapturesSkip` and `Classifier.CapturesFromEmpty` |
| TagPattern.RegexCaptures | src/api.rs:54 | `captures` is absent exactly when the pattern matches nowhere; otherwise group 1 is present and is the text between the first match's tags |
| TagPattern.NoNewlineInside | src/api.rs:65 | the characters of an occurrence of a newline-free tag are not newlines |
| TagPattern.OneMatchPerLine | src/api.rs:65 | two successive matches of `captures_iter` always have a newline between them |
| TagLocality.FirstMatchUnique | src/api.rs:65 | the first match from a position is unique |
| TagLocality.FindFromIsFirstMatch | src/api.rs:65 | whatever satisfies the meaning of the first match is what the search returns |
| TagLocality.SkipWithoutOpen | src/api.rs:65 | positions without an opening tag do not change the search result |
| TagLocality.CapturesSkip | src/api.rs:65 | positions without an opening tag do not change the list of captures |
| TagLocality.CapturesFromSome | src/api.rs:65 | the iteration yields the found match's group 1 first and resumes at its end |
| TagLocality.AbsentChar | src/api.rs:75 | a text lacking one character of a pattern has no occurrence of the pattern |
| TagLocality.LineMatch | src/api.rs:65 | a match whose closing tag is followed by a newline or by the end of the text is the first match from its start |
| TagLocality.LongerCloseCrossesLine | src/api.rs:65 | a closing tag that starts inside one ending at a newline is not a closing tag |
| TagLocality.NewlineNotOpen | src/api.rs:65 | no opening tag starts at a newline |
| TagLocality.CapturesSkipNewline | src/api.rs:65 | the newline that ends a line is skipped by the iteration |
| TagLocality.ElementAt | src/api.rs:65 | an element `<tag>c</tag>` inside a text is a match candidate whose group is `c` |
| TagLocality.CapturesOfFinalMatch | src/api.rs:65 | when the found match ends the text, the iteration yields exactly its group 1 |
| TagLocality.ElementLine | src/api.rs:65 | an element followed by a line break is matched whole and alone: the newline stops the greedy group |
| TagLocality.LastElementLine | src/api.rs:65 | an element that ends the text is matched whole, up to the end of the text |
| TagLocality.TwoElementsOneMatch | src/api.rs:65 | two elements on one line give ONE match whose group 1 holds the inner closing and opening tags, and that match ends the text |
| Classifier.GetStringFromMatch | src/api.rs:45-51 | group 1 of a `Captures`, or `""` when group 1 did not take part in the match; with these patterns group 1 is always present (`TagPattern.RegexCaptures`) |
| Classifier.GetStopName | src/api.rs:53-59 | the `unwrap` panics (`None`) exactly when `<stpnm>(.*)</stpnm>` matches nowhere; otherwise the name is the first match's group 1 with `&amp;` unescaped |
| Classifier.MessageText | src/api.rs:93-96 | the same for `<msg>(.*)</msg>` |
| Classifier.GetArrivalTimes | src/api.rs:62-72 | the loop builds the concatenation, in match order, of each `captures_iter` group 1 followed by `...` |
| Classifier.ArrivalTimes | src/api.rs:62-72 | the summary of the captures of `<prdctdn>(.*)</prdctdn>`; `GetArrivalTimes` computes it, and `JoinArrivalsLength` and `ArrivalTimesEmpty` state its length and when it is empty |
| Classifier.ArrivalStep | src/api.rs:65-67 | one turn of the loop moves the next capture and its suffix from the remaining summary onto the built prefix |
| Classifier.JoinCons | src/api.rs:67 | the summary of a list is its head, the suffix, then the summary of the rest |
| Classifier.JoinArrivalsLength | src/api.rs:62-72 | the summary's length is the sum over the captures of the capture length plus 3 |
| Classifier.CapturesFromEmpty | src/api.rs:65 | the iteration yields nothing exactly when the pattern matches nowhere from the start position |
| Classifier.ArrivalTimesEmpty | src/api.rs:62-72 | the summary is `""` exactly when `<prdctdn>(.*)</prdctdn>` matches nowhere |
| Classifier.ContainsTags | src/api.rs:74-76 | true exactly when both `<tag>` and `</tag>` occur, anywhere and in either order |
| Classifier.MatchImpliesTags | src/api.rs:74-76 | a regex match implies that the tag test passes |
| Classifier.IsNoDataMessage | src/api.rs:98 | the "no data found for parameter" test on the ASCII-lower-cased message; pinned down by `NoDataMessageMeaning` and `NoDataIgnoresCase` |
| Classifier.NoDataIgnoresCase | src/api.rs:98 | messages that differ only in ASCII case are classified alike |
| Classifier.NoDataMessageMeaning | src/api.rs:98 | the test passes exactly when "no data found for parameter" occurs in the message in some mix of case |
| Freshness.NumSeconds | src/api.rs:143 | `num_seconds` truncates toward zero: the whole seconds below a non-negative duration, above a negative one |
| Freshness.IsRecent | src/api.rs:142-144 | `is_recent`: fewer than 60 whole seconds have passed, by truncating `num_seconds`; equivalent to an age below 60·10⁹ ns (`IsRecentExact`) |
| Freshness.IsRecentExact | src/api.rs:142-144 | an entry is recent exactly when it is less than 60 s old to the nanosecond, including one stamped in the future |
| Freshness.StaleStaysStale | src/api.rs:142-144 | once stale, an entry stays stale as the clock moves forward |
| LookupSpec.NewRecord | src/api.rs:20-22 | `record` keeps the string and stamps it with the write-time clock, so the record is fresh for exactly the next 60 s |
| LookupSpec.ConstructUrl | src/api.rs:40-43 | the URL is the predictions base, the key, `&stpid=` and the stop id, in that order and nothing else |
| LookupSpec.ConstructUrlInjective | src/api.rs:40-43 | with one key, distinct stop ids give distinct URLs |
| LookupSpec.PredictionsStep | src/api.rs:80-87 | a missing stop-name match panics and changes nothing; otherwise TIMETABLE\[stop\] becomes (now, reply) and NON_STOPS is untouched |
| LookupSpec.MessageStep | src/api.rs:92-109 | a missing message match panics and changes nothing; otherwise at most one of the two structures changes |
| LookupSpec.ResponseStep | src/api.rs:113-123 | `handle_response`: an unreadable body panics, prediction tags are tested before message tags, and otherwise the format is unknown; stated by `LookupProperties.ResponseDispatch` |
| LookupSpec.RequestStep | src/api.rs:126-134 | `request_arrival_times`: a missing key panics, a failed send answers the error text, a sent request is classified by `ResponseStep`; stated by `LookupProperties.RequestStepShape` and `LookupProperties.SendFailureChangesNothing` |
| LookupSpec.IsFreshEntry | src/api.rs:148-161 | the entry exists and `is_recent` holds at the check-time clock; `LookupProperties.FreshnessBoundary` states the 60 s window |
| LookupSpec.Lookup | src/api.rs:172-182 | `run`: a fresh entry is served, then a blocked stop is refused, and otherwise the API is asked; stated by `LookupProperties.LookupDecision`, `LookupShape` and `LookupFrame` |
| LookupProperties.PredictionsReplyShape | src/api.rs:81 | the predictions result is the stop name, then `"  -  "`, then the arrival summary |
| LookupProperties.MessageStepOutcomes | src/api.rs:98-108 | a "no data found" message adds the stop to NON_STOPS, returns "Not a valid stop id" and leaves TIMETABLE alone; any other message is stored as (now, message), returned verbatim, and NON_STOPS is untouched |
| LookupProperties.ResponseDispatch | src/api.rs:116-122 | the prediction tags are tested before the message tags; with neither pair present the reply is "Unknown response format" and nothing changes |
| LookupProperties.SendFailureChangesNothing | src/api.rs:130-133 | a failed send returns "There was an error sending the request" and changes nothing |
| LookupProperties.LookupDecision | src/api.rs:172-182 | `run` serves a fresh entry first, then the blocklist answer, and only otherwise fetches |
| LookupProperties.LookupWithoutFetch | src/api.rs:173-178 | on a fresh hit or a blocked stop the outcome does not depend on the key or the network |
| LookupProperties.FreshnessBoundary | src/api.rs:148-161 | an entry is served without a fetch for the 60 s after its timestamp; from then on an unblocked stop is fetched |
| LookupProperties.RequestStepShape | src/api.rs:126-134 | a request either changes nothing, stores its own reply under the stop id, or blocks the stop |
| LookupProperties.LookupShape | src/api.rs:172-182 | the same three shapes for one `run` |
| LookupProperties.LookupFrame | src/api.rs:172-182 | NON_STOPS only grows and only by the looked-up id; TIMETABLE keys are only added or overwritten under that id, other entries are untouched, and never both structures change |
| LookupProperties.RequestReplyIgnoresState | src/api.rs:126-134 | a fetch's reply does not depend on the cached state |
| LookupProperties.PredictionsStepIdempotent | src/api.rs:84 | storing the same predictions twice equals storing them once at the later time |
| LookupProperties.MessageStepIdempotent | src/api.rs:100-106 | the two message writes, a set insert and a map overwrite, are idempotent |
| LookupProperties.ResponseStepIdempotent | src/api.rs:113-123 | classifying the same body twice equals classifying it once at the later time |
| LookupProperties.RequestStepIdempotent | src/api.rs:126-134 | repeating a fetch with the same outcome does not accumulate: the state equals one fetch at the later time |
| LookupProperties.StoredResultIsServed | src/api.rs:172-175 | a result that a lookup stored is returned unchanged, with no fetch, by every lookup in the next 60 s |
| LookupProperties.LookupKeepsBlockedStale | src/api.rs:172-182 | with a clock that does not run backwards, a lookup keeps every blocked stop's entry stale |
| LookupProperties.BlockedShortCircuits | src/api.rs:176-177 | a blocked stop with a stale entry gets "Not a valid stop id" and nothing changes |
| LookupProperties.BlocklistPermanent | src/api.rs:176-177 | once blocked, a stop stays blocked and every later lookup of it answers "Not a valid stop id" |
| LookupProperties.RunKeepsBlockedStale | src/api.rs:172-182 | over a whole sequence of lookups with a clock that does not run backwards, every blocked stop's entry is stale at the last reading |
| LookupProperties.StartStateBlockedAreStale | src/api.rs:24-35 | the empty start state satisfies the blocked-entries-are-stale invariant |
| Api.BusTracker.constructor | src/api.rs:24-35 | both structures start empty |
| Api.BusTracker.HandlePredictions | src/api.rs:80-87 | the method's reply and new state are those of `PredictionsStep` |
| Api.BusTracker.HandleMessage | src/api.rs:92-109 | the method's reply and new state are those of `MessageStep` |
| Api.BusTracker.HandleResponse | src/api.rs:113-123 | the method's reply and new state are those of `ResponseStep` |
| Api.BusTracker.RequestArrivalTimes | src/api.rs:126-134 | the method's reply and new state are those of `RequestStep` |
| Api.BusTracker.IsKnownNonStop | src/api.rs:137-140 | true exactly when the stop id is in NON_STOPS |
| Api.BusTracker.IsRecentTimetableEntry | src/api.rs:148-161 | the flag is raised exactly when an entry exists and is less than 60 s old |
| Api.BusTracker.ReadTimetableEntry | src/api.rs:164-168 | the stored string, or the `unwrap` panic when the stop has no entry |
| Api.BusTracker.Run | src/api.rs:172-182 | the method's reply and new state are those of `Lookup`, and it never reaches the `read_timetable_entry` panic |
| Scenarios.SplitMessageTags | src/api.rs:93 | the only tags of `<msg>`, newline, `</msg>` are at positions 0 and 6 |
| Scenarios.TagsWithoutMatch | src/api.rs:118-119 | a message element split over two lines passes `contains_tags`, yet the regex does not match, so `handle_message` panics and nothing changes |
| Scenarios.SingleElementCaptures | src/api.rs:54 | a response that is one element has group 1 equal to the element's content |
| Scenarios.ElementStopName | src/api.rs:53-59 | the stop name of `<stpnm>c</stpnm>` is `c` unescaped |
| Scenarios.NameUnescaped | src/api.rs:56 | `Main &amp; 5th` becomes `Main & 5th` |
| Scenarios.ElementTags | src/api.rs:74-76 | an element holds both of its tags |
| Scenarios.ElementMessage | src/api.rs:93-96 | a `<msg>c</msg>` response passes the message tag test and its message is `c` unescaped |
| Scenarios.MessageResponse | src/api.rs:116-119 | such a response without prediction tags blocks the stop when it says "no data found", and otherwise stores and returns the message |

## Left out

- `src/main.rs` is not part of this model. It holds the actix-web server, the routes, the static page and the Handlebars template. Its `"  -  "` split is display glue.
- The `Mutex`es and `lazy_static!` are reduced to two fields of one object. Lookups are sequential, so locking, lock scopes and concurrent lookups of one stop are not modelled.
- reqwest is not modelled. The request is an `Environment.send` function from URL to outcome, called once per fetch.
- `env::var` is not modelled. Its value is `Environment.apiKey`, and a missing key is the panic it causes.
- The chrono clock is an integer count of nanoseconds, passed in as two readings per lookup.
- `to_lowercase` is modelled on ASCII letters only. Unicode case mapping, which can change a string's length, is left out.
- General regex semantics are left out. Only the three fixed `<tag>(.*)</tag>` patterns are modelled.
- Regexes are compiled with `unwrap`, which can panic only on a malformed pattern. These three patterns are valid, so that panic is not modelled.
- Text is a sequence of characters. A byte-level view of UTF-8 is left out. Only `\n` ends a line, which is what `.` excludes by default in the regex crate, so `\r` is an ordinary character both there and here.
- The captures of a prediction response with several elements on lines of their own are not stated as one lemma over the whole document. They follow line by line from `TagLocality.ElementLine`, `TagLocality.CapturesFromSome`, `TagLocality.CapturesSkipNewline` and `TagLocality.CapturesOfFinalMatch`.
