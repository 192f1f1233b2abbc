/** The response classifier of the lookup engine: tag detection, extraction of
    the stop name and the message, and the arrival-times summary. */
module Classifier {
  import opened Wrappers
  import opened Text
  import opened TagPattern
  import opened TagLocality

  const StopNameTag := "stpnm"
  const PredictionTag := "prdctdn"
  const MessageTag := "msg"
  /** Appended after every predicted arrival in the summary. */
  const ArrivalSuffix := "..."

  /** `get_string_from_match`: group 1 of a match, or the empty string when the
      group did not participate. */
  function GetStringFromMatch(c: Captures): string {
    match c.group1
    case Some(target) => target
    case None => ""
  }

  /** `get_stop_name`: group 1 of the first `<stpnm>(.*)</stpnm>` match with the
      entity unescaped. `None` stands for the panic of `unwrap` when nothing matches. */
  function GetStopName(xml: string): (r: Option<string>)
    ensures r.None? <==> forall p: nat, q: nat :: !CaptureAt(xml, StopNameTag, p, q)
    ensures r.Some? ==> exists p: nat, q: nat ::
      IsFirstMatch(xml, StopNameTag, 0, p, q) && r.value == UnescapeAmp(xml[p + |Open(StopNameTag)|..q])
  {
    match RegexCaptures(xml, StopNameTag)
    case None => None
    case Some(c) => Some(UnescapeAmp(GetStringFromMatch(c)))
  }

  /** The extraction step of `handle_message`: group 1 of the first
      `<msg>(.*)</msg>` match with the entity unescaped; `None` is the `unwrap` panic. */
  function MessageText(xml: string): (r: Option<string>)
    ensures r.None? <==> forall p: nat, q: nat :: !CaptureAt(xml, MessageTag, p, q)
    ensures r.Some? ==> exists p: nat, q: nat ::
      IsFirstMatch(xml, MessageTag, 0, p, q) && r.value == UnescapeAmp(xml[p + |Open(MessageTag)|..q])
  {
    match RegexCaptures(xml, MessageTag)
    case None => None
    case Some(c) => Some(UnescapeAmp(GetStringFromMatch(c)))
  }

  /** Each capture followed by the suffix, in order. */
  function JoinArrivals(caps: seq<string>): string
    decreases |caps|
  {
    if caps == [] then "" else caps[0] + ArrivalSuffix + JoinArrivals(caps[1..])
  }

  /** What `get_arrival_times` builds: the summary of every `<prdctdn>(.*)</prdctdn>` match. */
  function ArrivalTimes(xml: string): string {
    JoinArrivals(CapturesFrom(xml, PredictionTag, 0))
  }

  /** `get_arrival_times`: walks the matches in order and appends each group 1
      and the suffix to a growing string. */
  method GetArrivalTimes(xml: string) returns (arrivalTimes: string)
    ensures arrivalTimes == ArrivalTimes(xml)
  {
    arrivalTimes := "";
    var pos := 0;
    var next := FindFrom(xml, PredictionTag, pos);
    while next.Some?
      invariant pos <= |xml|
      invariant next == FindFrom(xml, PredictionTag, pos)
      invariant arrivalTimes + JoinArrivals(CapturesFrom(xml, PredictionTag, pos)) == ArrivalTimes(xml)
      decreases |xml| - pos
    {
      var m := next.value;
      var arrivalTime := GetStringFromMatch(Captures(Some(xml[m.capStart..m.capEnd])));
      ArrivalStep(xml, pos, arrivalTimes);
      arrivalTimes := arrivalTimes + arrivalTime + ArrivalSuffix;
      pos := m.end;
      next := FindFrom(xml, PredictionTag, pos);
    }
  }

  /** One turn of the loop: appending the next match's group 1 and the suffix
      moves the summary of the remaining matches onto the built prefix. */
  lemma ArrivalStep(xml: string, pos: nat, built: string)
    requires pos <= |xml| && FindFrom(xml, PredictionTag, pos).Some?
    ensures var m := FindFrom(xml, PredictionTag, pos).value;
      built + JoinArrivals(CapturesFrom(xml, PredictionTag, pos))
      == built + xml[m.capStart..m.capEnd] + ArrivalSuffix + JoinArrivals(CapturesFrom(xml, PredictionTag, m.end))
  {
    var m := FindFrom(xml, PredictionTag, pos).value;
    CapturesFromSome(xml, PredictionTag, pos, m.start, m.capStart, m.capEnd, m.end);
    JoinCons(built, xml[m.capStart..m.capEnd], CapturesFrom(xml, PredictionTag, m.end));
  }

  lemma JoinCons(built: string, c: string, rest: seq<string>)
    ensures built + JoinArrivals([c] + rest) == built + c + ArrivalSuffix + JoinArrivals(rest)
  {
    assert ([c] + rest)[1..] == rest;
  }

  /** The sum, over the captures, of each capture's length plus the suffix's. */
  function TotalWidth(caps: seq<string>): nat
    decreases |caps|
  {
    if caps == [] then 0 else |caps[0]| + |ArrivalSuffix| + TotalWidth(caps[1..])
  }

  /** The summary is exactly as long as its pieces: nothing is dropped or inserted. */
  lemma {:induction false} JoinArrivalsLength(caps: seq<string>)
    ensures |JoinArrivals(caps)| == TotalWidth(caps)
  {
    if caps != [] { JoinArrivalsLength(caps[1..]); }
  }

  /** The captures listed by the iteration are group 1 of successive matches, and
      the list is empty exactly when the pattern matches nowhere from `from` on. */
  lemma CapturesFromEmpty(s: string, tag: string, from: nat)
    requires from <= |s|
    ensures CapturesFrom(s, tag, from) == [] <==> forall p: nat, q: nat :: from <= p ==> !CaptureAt(s, tag, p, q)
  {
    match FindFrom(s, tag, from)
    case None =>
    case Some(m) => assert CaptureAt(s, tag, m.start, m.capEnd);
  }

  /** The summary is empty exactly when there is no prediction match at all. */
  lemma ArrivalTimesEmpty(xml: string)
    ensures ArrivalTimes(xml) == "" <==> forall p: nat, q: nat :: !CaptureAt(xml, PredictionTag, p, q)
  {
    var caps := CapturesFrom(xml, PredictionTag, 0);
    CapturesFromEmpty(xml, PredictionTag, 0);
    if caps != [] {
      assert |JoinArrivals(caps)| >= |ArrivalSuffix| by { JoinArrivalsLength(caps); }
    }
  }

  /** `contains_tags`: both the opening and the closing tag occur, anywhere and in any order. */
  function ContainsTags(xml: string, tag: string): (r: bool)
    ensures r <==> (exists i: nat :: IsAt(xml, Open(tag), i)) && (exists j: nat :: IsAt(xml, Close(tag), j))
  {
    Contains(xml, Open(tag)) && Contains(xml, Close(tag))
  }

  /** A regex match implies the tag test; TagsWithoutMatch shows that the converse fails. */
  lemma MatchImpliesTags(xml: string, tag: string, p: nat, q: nat)
    requires CaptureAt(xml, tag, p, q)
    ensures ContainsTags(xml, tag)
  {
  }

  const NoDataPhrase := "no data found for parameter"

  /** The test of `handle_message`: the lower-cased message mentions that the API has no data for the stop. */
  function IsNoDataMessage(message: string): bool {
    Contains(ToLowerAscii(message), NoDataPhrase)
  }

  /** The test ignores ASCII case: messages that differ only in the case of
      their letters are classified alike. */
  lemma {:induction false} NoDataIgnoresCase(a: string, b: string)
    requires |a| == |b|
    requires forall i :: 0 <= i < |a| ==> LowerAscii(a[i]) == LowerAscii(b[i])
    ensures IsNoDataMessage(a) == IsNoDataMessage(b)
  {
    assert ToLowerAscii(a) == ToLowerAscii(b);
  }

  /** The message holds, at `i`, the phrase in some mix of upper and lower case. */
  ghost predicate PhraseAnyCaseAt(message: string, i: nat) {
    && i + |NoDataPhrase| <= |message|
    && forall k :: 0 <= k < |NoDataPhrase| ==> LowerAscii(message[i + k]) == NoDataPhrase[k]
  }

  /** What the test means: the phrase occurs, in any ASCII case, somewhere in the message. */
  lemma NoDataMessageMeaning(message: string)
    ensures IsNoDataMessage(message) <==> exists i: nat :: PhraseAnyCaseAt(message, i)
  {
    var low := ToLowerAscii(message);
    if IsNoDataMessage(message) {
      var i: nat :| IsAt(low, NoDataPhrase, i);
      forall k | 0 <= k < |NoDataPhrase| ensures LowerAscii(message[i + k]) == NoDataPhrase[k] {
        assert low[i..i + |NoDataPhrase|][k] == low[i + k];
      }
      assert PhraseAnyCaseAt(message, i);
    }
    if i: nat :| PhraseAnyCaseAt(message, i) {
      assert low[i..i + |NoDataPhrase|] == NoDataPhrase;
      assert IsAt(low, NoDataPhrase, i);
    }
  }
}
