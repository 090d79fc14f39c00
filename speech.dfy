/** Speaking: the checks made before anything is sent, and the two-step
    synthesis followed by playback once they pass. */
module Speech {
  import opened Wrappers
  import opened Text
  import opened Endpoints
  import opened Catalog
  import opened Effects

  /** What one synthesis needs: where to send it, the text and the style id. */
  datatype SpeechRequest = SpeechRequest(baseUrl: string, text: string, speaker: Int32)

  /** Return silently, show a message and return, or go ahead. */
  datatype Decision = Skip | Refuse(notice: Notice) | Issue(request: SpeechRequest)

  /** The four checks at the start of a speak, in their order: the trimmed
      text, the playback device, the voice model, the base address. A
      refusal carries one of the two messages, and a request the base
      address, the trimmed text and the selected style's id. */
  function SpeakGate(input: string, deviceIndex: int, selected: Option<StyleItem>, server: string): (d: Decision)
    ensures d.Refuse? ==> d.notice == NoModelSelected || d.notice == SpeakServerUrlMissing
    ensures d.Issue? ==> selected.Some? && d.request == SpeechRequest(BaseUrl(server), Trim(input), selected.value.id)
  {
    var text := Trim(input);
    if text == [] then Skip
    else if deviceIndex < 0 then Skip
    else if selected.None? then Refuse(NoModelSelected)
    else
      var base := BaseUrl(server);
      if base == [] then Refuse(SpeakServerUrlMissing)
      else Issue(SpeechRequest(base, text, selected.value.id))
  }

  /** Which combination of the four checks leads to which outcome. A
      request goes ahead exactly when all four pass; an empty text or a
      missing device returns silently before anything else is looked at;
      a missing model is reported before a missing address. */
  lemma SpeakGateOutcomes(input: string, deviceIndex: int, selected: Option<StyleItem>, server: string)
    ensures var d := SpeakGate(input, deviceIndex, selected, server);
      && (d.Issue? <==> Trim(input) != [] && deviceIndex >= 0 && selected.Some? && BaseUrl(server) != [])
      && (d.Skip? <==> Trim(input) == [] || deviceIndex < 0)
      && (d == Refuse(NoModelSelected) <==> Trim(input) != [] && deviceIndex >= 0 && selected.None?)
      && (d == Refuse(SpeakServerUrlMissing)
          <==> Trim(input) != [] && deviceIndex >= 0 && selected.Some? && BaseUrl(server) == [])
  {
    assert NoModelSelected != SpeakServerUrlMissing by {
      assert |NoModelSelected.text| != |SpeakServerUrlMissing.text|;
    }
  }

  /** Text made of white space only is dropped silently, whatever else the
      form holds. */
  lemma WhiteSpaceIsSkipped(input: string, deviceIndex: int, selected: Option<StyleItem>, server: string)
    requires forall i :: 0 <= i < |input| ==> IsWhiteSpace(input[i])
    ensures SpeakGate(input, deviceIndex, selected, server) == Skip
  {
    TrimEmptyIff(input);
  }

  /** A request that goes ahead carries the user's text with only the white
      space around it cut, not empty and neither starting nor ending with
      white space, and a base address that is not empty and does not end
      with a slash. */
  lemma IssuedRequestIsClean(input: string, deviceIndex: int, selected: Option<StyleItem>, server: string)
    requires SpeakGate(input, deviceIndex, selected, server).Issue?
    ensures var r := SpeakGate(input, deviceIndex, selected, server).request;
      r.text != [] && !IsWhiteSpace(r.text[0]) && !IsWhiteSpace(r.text[|r.text| - 1])
      && r.baseUrl != [] && r.baseUrl[|r.baseUrl| - 1] != '/'
      && (exists i :: 0 <= i < |input| && !IsWhiteSpace(input[i]))
      && (exists a, b :: OnlyAround(input, WhiteSpace, a, b) && r.text == input[a..b])
  {
    var text, base := Trim(input), BaseUrl(server);
    assert SpeakGate(input, deviceIndex, selected, server) == Issue(SpeechRequest(base, text, selected.value.id));
    TrimNonEmpty(input);
    TrimKeepsMiddle(input);
  }

  /** What follows the audio query, given the answers: the synthesis
      request, the attempt to play the audio, and at most one message. */
  function SpeakTail(request: SpeechRequest, query: HttpResult<string>, synthesis: HttpResult<seq<bv8>>,
                     playback: Playback, device: int): (r: (seq<Effect>, seq<Notice>))
    ensures query.Failed? ==> r == ([], [SpeakFailed(query.message)])
    ensures query.Ok? ==> |r.0| >= 1 && r.0[0] == Post(SynthesisUrl(request.baseUrl, request.speaker), Some(query.body))
    ensures |r.0| == 2 <==> query.Ok? && synthesis.Ok?
    ensures |r.0| == 2 ==> r.0[1] == Play(device, synthesis.body)
    ensures |r.0| <= 2 && |r.1| <= 1
    ensures r.1 == [] <==> query.Ok? && synthesis.Ok? && playback.Played?
    ensures query.Ok? && synthesis.Failed? ==> r.1 == [SpeakFailed(synthesis.message)]
    ensures query.Ok? && synthesis.Ok? && playback.PlaybackFailed? ==> r.1 == [SpeakFailed(playback.message)]
  {
    match query
    case Failed(m) => ([], [SpeakFailed(m)])
    case Ok(json) =>
      var post := Post(SynthesisUrl(request.baseUrl, request.speaker), Some(json));
      match synthesis
      case Failed(m) => ([post], [SpeakFailed(m)])
      case Ok(wav) =>
        var play := Play(device, wav);
        match playback
        case PlaybackFailed(m) => ([post, play], [SpeakFailed(m)])
        case Played => ([post, play], [])
  }
}
