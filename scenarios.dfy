/** Concrete responses run through the classifier and the lookup steps. */
module Scenarios {
  import opened Wrappers
  import opened Text
  import opened TagPattern
  import opened TagLocality
  import opened Classifier
  import opened LookupSpec
  import opened LookupProperties

  /** A message element broken over two lines. */
  const SplitMessage := "<msg>\n</msg>"

  lemma SplitMessageTags()
    ensures IsAt(SplitMessage, Open(MessageTag), 0)
    ensures IsAt(SplitMessage, Close(MessageTag), 6)
    ensures forall p: nat :: IsAt(SplitMessage, Open(MessageTag), p) ==> p == 0
    ensures forall q: nat :: IsAt(SplitMessage, Close(MessageTag), q) ==> q == 6
  {
    var s := SplitMessage;
    forall p: nat | IsAt(s, Open(MessageTag), p) ensures p == 0 {
      assert s[p] == s[p..p + 5][0] == '<';
      assert s[p + 1] == s[p..p + 5][1] == 'm';
    }
    forall q: nat | IsAt(s, Close(MessageTag), q) ensures q == 6 {
      assert s[q] == s[q..q + 6][0] == '<';
      assert s[q + 1] == s[q..q + 6][1] == '/';
    }
  }

  /** Both tags are present, so `contains_tags` says yes, yet the pattern does
      not match because group 1 cannot hold the newline: `handle_message`
      reaches its `unwrap` with nothing to unwrap, and the state is untouched. */
  lemma TagsWithoutMatch(st: State, stopId: string, now: int)
    ensures ContainsTags(SplitMessage, MessageTag)
    ensures !ContainsTags(SplitMessage, PredictionTag)
    ensures MessageText(SplitMessage).None?
    ensures ResponseStep(st, stopId, Response(Some(SplitMessage)), now) == Step(Panic(NoMessageMatch), st)
  {
    SplitMessageTags();
    AbsentChar(SplitMessage, Open(PredictionTag), 'p');
    assert SplitMessage[5] == '\n';
  }

  /** A response that is one element: the regex sees the whole element. */
  lemma SingleElementCaptures(tag: string, c: string)
    requires '\n' !in tag && '\n' !in c
    ensures RegexCaptures(Open(tag) + c + Close(tag), tag) == Some(Captures(Some(c)))
  {
    assert [] + Open(tag) + c + Close(tag) == Open(tag) + c + Close(tag);
    LastElementLine(tag, [], c);
  }

  /** A text that is one `<stpnm>c</stpnm>` element gives the stop name `c`
      with its entities unescaped. */
  lemma ElementStopName(c: string)
    requires '\n' !in c
    ensures GetStopName(Open(StopNameTag) + c + Close(StopNameTag)) == Some(UnescapeAmp(c))
  {
    SingleElementCaptures(StopNameTag, c);
  }

  /** The entity in a stop name comes back as `&`, and the rest is copied. */
  lemma NameUnescaped()
    ensures UnescapeAmp("Main &amp; 5th") == "Main & 5th"
  {
    AbsentChar("Main ", Amp, '&');
    AbsentChar(" 5th", Amp, '&');
    assert "Main &amp; 5th" == "Main " + Amp + " 5th";
    UnescapeSplice("Main ", " 5th");
    UnescapeWithoutEntity(" 5th");
  }

  /** A message response that is one `<msg>c</msg>` element and holds no
      prediction tags: a "no data found" message blocks the stop and leaves
      TIMETABLE alone, any other message is stored and returned unescaped. */
  lemma MessageResponse(st: State, stopId: string, c: string, now: int)
    requires '\n' !in c
    requires !ContainsTags(Open(MessageTag) + c + Close(MessageTag), PredictionTag)
    ensures var r := ResponseStep(st, stopId, Response(Some(Open(MessageTag) + c + Close(MessageTag))), now);
            var m := UnescapeAmp(c);
            && (IsNoDataMessage(m) ==> r == Step(Text(NotAValidStopId), st.(nonStops := st.nonStops + {stopId})))
            && (!IsNoDataMessage(m) ==> r == Step(Text(m), st.(timetable := st.timetable[stopId := Record(now, m)])))
  {
    var xml := Open(MessageTag) + c + Close(MessageTag);
    ElementMessage(c);
    ResponseDispatch(st, stopId, xml, now);
    MessageStepOutcomes(st, stopId, xml, now);
  }

  /** A response that is one `<msg>c</msg>` element passes the message tag test,
      and its message is `c` unescaped. */
  lemma ElementMessage(c: string)
    requires '\n' !in c
    ensures ContainsTags(Open(MessageTag) + c + Close(MessageTag), MessageTag)
    ensures MessageText(Open(MessageTag) + c + Close(MessageTag)) == Some(UnescapeAmp(c))
  {
    ElementTags(MessageTag, c);
    SingleElementCaptures(MessageTag, c);
  }

  /** An element holds both of its tags. */
  lemma ElementTags(tag: string, c: string)
    ensures ContainsTags(Open(tag) + c + Close(tag), tag)
  {
    var xml := Open(tag) + c + Close(tag);
    assert IsAt(xml, Open(tag), 0) by { assert xml[..|Open(tag)|] == Open(tag); }
    assert IsAt(xml, Close(tag), |Open(tag)| + |c|) by { assert xml[|Open(tag)| + |c|..] == Close(tag); }
  }
}

