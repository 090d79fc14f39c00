/** The main window: the controls whose state the event handlers read and
    update, and the handlers themselves. An asynchronous handler is split
    at its first `await`: the part that runs when the event fires (`Begin`)
    and the part that runs once the server has answered (`Complete`).
    Between the two the window keeps handling events, which is when a
    disabled button matters. */
module App {
  import opened Wrappers
  import opened Text
  import opened Endpoints
  import opened Catalog
  import opened Effects
  import opened Speech
  import opened Advanced

  /** The deserialised `/speakers` answer (a JSON `null` array is read as an
      empty list), or the message of the exception raised by the request,
      the status check or the deserializer. */
  datatype SpeakersResponse = Parsed(speakers: seq<SpeakerDto>) | Unavailable(message: string)

  /** A catalog load waiting for its answer. */
  datatype LoadCall = LoadCall(baseUrl: string, showError: bool)

  /** The voice list and its selected index once a load is answered. A
      failed request leaves the list and the selection alone; a read
      response replaces the list, whatever it held, with its flattening,
      and selects the first entry exactly when the response has no null
      and the list holds an entry, none otherwise. A selection that indexed
      the old list indexes the new one or is none. */
  function Reloaded(items: seq<StyleItem>, selected: int, response: SpeakersResponse): (r: (seq<StyleItem>, int))
    ensures -1 <= selected < |items| ==> -1 <= r.1 < |r.0|
    ensures response.Unavailable? ==> r == (items, selected)
    ensures response.Parsed? ==>
              r.0 == Flatten(response.speakers).items
              && (r.1 == 0 <==> NullFree(response.speakers) && r.0 != [])
              && (r.1 != 0 ==> r.1 == -1)
  {
    match response
    case Unavailable(_) => (items, selected)
    case Parsed(speakers) =>
      var listing := Flatten(speakers);
      FlattenCompleteIff(speakers);
      (listing.items, if listing.complete && listing.items != [] then 0 else -1)
  }

  /** Without nulls, a read response selects the first entry exactly when
      some speaker has a style. */
  lemma ReloadedSelectsWhenStyles(items: seq<StyleItem>, selected: int, speakers: seq<SpeakerDto>)
    requires NullFree(speakers)
    ensures Reloaded(items, selected, Parsed(speakers)).1 == 0
        <==> exists k :: 0 <= k < |speakers| && speakers[k].styles != []
  {
    FlattenCompleteIff(speakers);
    FlattenEmptyIff(speakers);
  }

  /** Loading again with the same answer gives the same list and selection. */
  lemma ReloadedIdempotent(items: seq<StyleItem>, selected: int, response: SpeakersResponse)
    ensures var (list, sel) := Reloaded(items, selected, response);
      Reloaded(list, sel, response) == (list, sel)
  {
  }

  /** The exception a load raises once it is answered, if any. */
  function LoadFailure(response: SpeakersResponse): Option<string>
  {
    match response
    case Unavailable(m) => Some(m)
    case Parsed(speakers) => if Flatten(speakers).complete then None else Some(NullReferenceMessage)
  }

  /** The messages a completed load shows, and the exception that leaves it:
      any failure is shown when `showError` is set and escapes otherwise;
      an empty list is warned about only when `showError` is set, and a
      load that fills the list shows nothing. */
  function LoadReport(call: LoadCall, response: SpeakersResponse): (r: (seq<Notice>, Option<string>))
    ensures r.1.Some? ==> !call.showError && r.0 == []
    ensures r.1.Some? || LoadFailure(response).Some? ==> r.1 == LoadFailure(response) || call.showError
    ensures call.showError ==> r.1 == None
    ensures |r.0| <= 1
    ensures r.0 == [NoStyles] <==> call.showError && response.Parsed? && Flatten(response.speakers) == Listing([], true)
    ensures call.showError && LoadFailure(response).Some? ==> r.0 == [ConnectionError(call.baseUrl, LoadFailure(response).value)]
    ensures !call.showError ==> r.0 == []
    ensures LoadFailure(response).None? && Flatten(response.speakers).items != [] ==> r.0 == []
  {
    match LoadFailure(response)
    case Some(m) => if call.showError then ([ConnectionError(call.baseUrl, m)], None) else ([], Some(m))
    case None =>
      if call.showError && Flatten(response.speakers).items == [] then ([NoStyles], None) else ([], None)
  }

  class MainForm {
    /** The server text box. */
    var server: string
    /** The text box of what to say. */
    var input: string
    /** The playback-device drop-down: its entries and selected index. */
    var devices: seq<string>
    var deviceIndex: int
    /** The voice-model drop-down: its entries and selected index. */
    var items: seq<StyleItem>
    var selectedIndex: int
    /** The advanced panel's visibility, the toggle button's text and the
        window's minimum size. */
    var panelVisible: bool
    var toggleText: string
    var minimumSize: Size
    /** The `Enabled` flags of the Speak and refresh buttons. */
    var speakEnabled: bool
    var refreshEnabled: bool
    /** The message boxes shown and the effects issued, oldest first. */
    var notices: seq<Notice>
    var effects: seq<Effect>
    /** Handlers that passed their first `await` and have not finished. */
    ghost var speaksInFlight: nat
    ghost var loadsInFlight: nat

    /** The selections index their lists and the window's minimum size
        follows the panel's visibility. The toggle caption is not tied to
        the visibility: it starts wrong. Every handler keeps this. */
    ghost predicate WellFormed()
      reads this
    {
      -1 <= deviceIndex < |devices| && -1 <= selectedIndex < |items|
      && SizeFollows(ChromeState())
    }

    /** Well formed, and a button is disabled exactly while an operation it
        started is outstanding, of which there is at most one. The program
        as written can leave this (see `CtrlEnterOverlap`). */
    ghost predicate Valid()
      reads this
    {
      WellFormed()
      && (speakEnabled <==> speaksInFlight == 0) && speaksInFlight <= 1
      && (refreshEnabled <==> loadsInFlight == 0) && loadsInFlight <= 1
    }

    function ChromeState(): Chrome
      reads this`panelVisible, this`toggleText, this`minimumSize
    {
      Chrome(panelVisible, toggleText, minimumSize)
    }

    /** `_cbModel.SelectedItem as StyleItem`. */
    function SelectedItem(): Option<StyleItem>
      reads this`items, this`selectedIndex
    {
      if 0 <= selectedIndex < |items| then Some(items[selectedIndex]) else None
    }

    constructor ()
      ensures Valid()
      ensures server == DefaultServer && input == [] && devices == [] && deviceIndex == -1
      ensures items == [] && selectedIndex == -1 && ChromeState() == InitialChromeAsWritten()
      ensures speakEnabled && refreshEnabled && notices == [] && effects == []
      ensures speaksInFlight == 0 && loadsInFlight == 0
    {
      server, input := DefaultServer, [];
      devices, deviceIndex := [], -1;
      items, selectedIndex := [], -1;
      var c := InitialChromeAsWritten();
      panelVisible, toggleText, minimumSize := c.panelVisible, c.toggleText, c.minimumSize;
      speakEnabled, refreshEnabled := true, true;
      notices, effects := [], [];
      speaksInFlight, loadsInFlight := 0, 0;
    }

    /** A click on the toggle button. */
    method ToggleAdvanced()
      requires WellFormed()
      modifies this`panelVisible, this`toggleText, this`minimumSize
      ensures WellFormed() && Consistent(ChromeState())
      ensures old(Valid()) ==> Valid()
      ensures ChromeState() == Toggled(old(ChromeState()))
    {
      panelVisible := !panelVisible;
      toggleText := if panelVisible then ExpandedCaption else CollapsedCaption;
      minimumSize := if panelVisible then Size(300, 180) else Size(300, 120);
    }

    /** What the synchronous part of a catalog load does. */
    twostate predicate LoadBegun(showError: bool, new call: Option<LoadCall>)
      reads this
    {
      var base := BaseUrl(server);
      if base == [] then
        call == None && refreshEnabled == old(refreshEnabled) && loadsInFlight == old(loadsInFlight)
        && effects == old(effects) && notices == old(notices) + (if showError then [LoadServerUrlMissing] else [])
      else
        call == Some(LoadCall(base, showError)) && !refreshEnabled && loadsInFlight == old(loadsInFlight) + 1
        && effects == old(effects) + [Get(SpeakersUrl(base))] && notices == old(notices)
    }

    /** A catalog load up to its request: an empty base address stops it
        before anything is sent, otherwise the refresh button is disabled
        and the catalog is requested. */
    method BeginLoad(showError: bool) returns (call: Option<LoadCall>)
      modifies this`refreshEnabled, this`loadsInFlight, this`notices, this`effects
      ensures LoadBegun(showError, call)
      ensures old(WellFormed()) ==> WellFormed()
      ensures old(Valid()) && old(loadsInFlight) == 0 ==> Valid()
    {
      var base := BaseUrl(server);
      if base == [] {
        if showError {
          notices := notices + [LoadServerUrlMissing];
        }
        return None;
      }
      refreshEnabled := false;
      loadsInFlight := loadsInFlight + 1;
      effects := effects + [Get(SpeakersUrl(base))];
      call := Some(LoadCall(base, showError));
    }

    /** Lines 134-137: the voice list cleared, then one item added per
        (speaker, style) pair in input order, until the end or until a null
        throws. Clearing the list also clears its selection. */
    method FillModels(speakers: seq<SpeakerDto>) returns (faulted: bool)
      modifies this`items, this`selectedIndex
      ensures Listing(items, !faulted) == Flatten(speakers)
      ensures selectedIndex == -1
    {
      items, selectedIndex := [], -1;
      var i := 0;
      faulted := false;
      while i < |speakers| && !faulted
        modifies this`items
        invariant 0 <= i <= |speakers|
        invariant Flatten(speakers[..i]) == Listing(items, !faulted)
      {
        match speakers[i] {
          case NullSpeaker =>
            faulted := true;
          case SpeakerDto(name, styles) =>
            faulted := AddStyles(name, styles);
        }
        assert speakers[..i + 1][..i] == speakers[..i];
        i := i + 1;
      }
      if i < |speakers| {
        assert speakers == speakers[..i] + speakers[i..];
        FlattenAppend(speakers[..i], speakers[i..]);
      } else {
        assert speakers[..i] == speakers;
      }
    }

    /** The inner loop: one item per style of speaker `name`, appended in
        order, until the end or until a null style throws. */
    method AddStyles(name: string, styles: seq<StyleDto>) returns (faulted: bool)
      modifies this`items
      ensures Listing(items, !faulted) == Then(Listing(old(items), true), StyleItems(name, styles))
    {
      var j := 0;
      faulted := false;
      while j < |styles| && !faulted
        invariant 0 <= j <= |styles|
        invariant Then(Listing(old(items), true), StyleItems(name, styles[..j])) == Listing(items, !faulted)
      {
        match styles[j] {
          case NullStyle =>
            faulted := true;
          case StyleDto(id, styleName) =>
            items := items + [StyleItem(id, Label(name, styleName, id))];
        }
        assert styles[..j + 1][..j] == styles[..j];
        j := j + 1;
      }
      if j < |styles| {
        assert styles == styles[..j] + styles[j..];
        StyleItemsAppend(name, styles[..j], styles[j..]);
      } else {
        assert styles[..j] == styles;
      }
    }

    /** The rest of a catalog load, once the answer is in: a read answer
        replaces the list, then selects the first item or warns; any failure
        is shown or escapes; the refresh button is enabled again on every
        path. */
    method CompleteLoad(call: LoadCall, response: SpeakersResponse) returns (escaped: Option<string>)
      requires loadsInFlight > 0
      modifies this`items, this`selectedIndex, this`refreshEnabled, this`loadsInFlight, this`notices
      ensures (items, selectedIndex) == Reloaded(old(items), old(selectedIndex), response)
      ensures (notices, escaped) == (old(notices) + LoadReport(call, response).0, LoadReport(call, response).1)
      ensures refreshEnabled && loadsInFlight == old(loadsInFlight) - 1
      ensures old(WellFormed()) ==> WellFormed()
      ensures old(Valid()) ==> Valid()
    {
      var failure := ReadResponse(call.showError, response);
      escaped := None;
      if failure.Some? {
        if call.showError {
          notices := notices + [ConnectionError(call.baseUrl, failure.value)];
        } else {
          escaped := failure;
        }
      }
      assert escaped == LoadReport(call, response).1;
      assert notices == old(notices) + LoadReport(call, response).0;
      refreshEnabled := true;
      loadsInFlight := loadsInFlight - 1;
    }

    /** The body of the load's `try` block: the list refilled from a read
        answer, then the first item selected or the empty list warned
        about; the failure it raises, if any. */
    method ReadResponse(showError: bool, response: SpeakersResponse) returns (failure: Option<string>)
      modifies this`items, this`selectedIndex, this`notices
      ensures (items, selectedIndex) == Reloaded(old(items), old(selectedIndex), response)
      ensures failure == LoadFailure(response)
      ensures notices == old(notices) + (if showError && failure.None? && items == [] then [NoStyles] else [])
    {
      failure := None;
      if response.Unavailable? {
        failure := Some(response.message);
      } else {
        var faulted := FillModels(response.speakers);
        if faulted {
          failure := Some(NullReferenceMessage);
        } else if |items| > 0 {
          selectedIndex := 0;
        } else if showError {
          notices := notices + [NoStyles];
        }
      }
    }

    /** What the synchronous part of a speak does once the checks have led
        to `decision`: nothing, one message, or the Speak button disabled and
        the audio query sent. */
    twostate predicate SpeakBegun(decision: Decision, esc: string -> string, new call: Option<SpeechRequest>)
      reads this
    {
      match decision
      case Skip =>
        call == None && notices == old(notices) && effects == old(effects)
        && speakEnabled == old(speakEnabled) && speaksInFlight == old(speaksInFlight)
      case Refuse(n) =>
        call == None && notices == old(notices) + [n] && effects == old(effects)
        && speakEnabled == old(speakEnabled) && speaksInFlight == old(speaksInFlight)
      case Issue(request) =>
        call == Some(request) && notices == old(notices)
        && effects == old(effects) + [Post(QueryUrl(request.baseUrl, esc, request.text, request.speaker), None)]
        && !speakEnabled && speaksInFlight == old(speaksInFlight) + 1
    }

    /** A speak up to its first request; `esc` is the runtime's
        percent-encoding of a query value. */
    method BeginSpeak(esc: string -> string) returns (call: Option<SpeechRequest>)
      modifies this`speakEnabled, this`speaksInFlight, this`notices, this`effects
      ensures SpeakBegun(old(SpeakGate(input, deviceIndex, SelectedItem(), server)), esc, call)
      ensures old(WellFormed()) ==> WellFormed()
      ensures old(Valid()) && old(speaksInFlight) == 0 ==> Valid()
    {
      var decision := SpeakGate(input, deviceIndex, SelectedItem(), server);
      call := Act(decision, esc);
    }

    /** Carries out the outcome of the checks. */
    method Act(decision: Decision, esc: string -> string) returns (call: Option<SpeechRequest>)
      modifies this`speakEnabled, this`speaksInFlight, this`notices, this`effects
      ensures SpeakBegun(decision, esc, call)
      ensures old(WellFormed()) ==> WellFormed()
      ensures old(Valid()) && old(speaksInFlight) == 0 ==> Valid()
    {
      match decision {
        case Skip =>
          call := None;
        case Refuse(n) =>
          notices := notices + [n];
          call := None;
        case Issue(request) =>
          speakEnabled := false;
          speaksInFlight := speaksInFlight + 1;
          effects := effects + [Post(QueryUrl(request.baseUrl, esc, request.text, request.speaker), None)];
          call := Some(request);
      }
    }

    /** The rest of a speak, once the answers are in: the synthesis request
        carrying the query's answer, playback on the device selected at that
        moment, one message for the first failure, and the Speak button
        enabled again on every path. */
    method CompleteSpeak(request: SpeechRequest, query: HttpResult<string>, synthesis: HttpResult<seq<bv8>>,
                         playback: Playback)
      requires speaksInFlight > 0
      modifies this`speakEnabled, this`speaksInFlight, this`notices, this`effects
      ensures effects == old(effects) + SpeakTail(request, query, synthesis, playback, deviceIndex).0
      ensures notices == old(notices) + SpeakTail(request, query, synthesis, playback, deviceIndex).1
      ensures speakEnabled && speaksInFlight == old(speaksInFlight) - 1
      ensures old(WellFormed()) ==> WellFormed()
      ensures old(Valid()) ==> Valid()
    {
      match query {
        case Failed(m) =>
          notices := notices + [SpeakFailed(m)];
        case Ok(json) =>
          effects := effects + [Post(SynthesisUrl(request.baseUrl, request.speaker), Some(json))];
          match synthesis {
            case Failed(m) =>
              notices := notices + [SpeakFailed(m)];
            case Ok(wav) =>
              effects := effects + [Play(deviceIndex, wav)];
              if playback.PlaybackFailed? {
                notices := notices + [SpeakFailed(playback.message)];
              }
          }
      }
      speakEnabled := true;
      speaksInFlight := speaksInFlight - 1;
    }

    /** A click on Speak, or Ctrl+Enter in the text box once it checks the
        button as the click does: a disabled button ignores it. */
    method OnSpeakRequest(esc: string -> string) returns (call: Option<SpeechRequest>)
      requires WellFormed()
      modifies this`speakEnabled, this`speaksInFlight, this`notices, this`effects
      ensures WellFormed()
      ensures old(Valid()) ==> Valid()
      ensures old(speakEnabled) ==> SpeakBegun(old(SpeakGate(input, deviceIndex, SelectedItem(), server)), esc, call)
      ensures !old(speakEnabled) ==> call == None && unchanged(this)
    {
      if speakEnabled {
        call := BeginSpeak(esc);
      } else {
        call := None;
      }
    }

    /** Ctrl+Enter in the text box as written: it starts a speak whether or
        not the Speak button is enabled. */
    method OnCtrlEnterAsWritten(esc: string -> string) returns (call: Option<SpeechRequest>)
      modifies this`speakEnabled, this`speaksInFlight, this`notices, this`effects
      ensures old(WellFormed()) ==> WellFormed()
      ensures SpeakBegun(old(SpeakGate(input, deviceIndex, SelectedItem(), server)), esc, call)
    {
      call := BeginSpeak(esc);
    }

    /** A click on the refresh button: a disabled button ignores it. */
    method OnRefreshClick() returns (call: Option<LoadCall>)
      requires WellFormed()
      modifies this`refreshEnabled, this`loadsInFlight, this`notices, this`effects
      ensures WellFormed()
      ensures old(Valid()) ==> Valid()
      ensures old(refreshEnabled) ==> LoadBegun(true, call)
      ensures !old(refreshEnabled) ==> call == None && unchanged(this)
    {
      if refreshEnabled {
        call := BeginLoad(true);
      } else {
        call := None;
      }
    }

    /** The window's `Load` event: the active playback devices are listed,
        the first is selected if there is one, and a catalog load with
        messages starts. */
    method Initialize(endpoints: seq<string>) returns (call: Option<LoadCall>)
      requires WellFormed()
      modifies this`devices, this`deviceIndex, this`refreshEnabled, this`loadsInFlight, this`notices, this`effects
      ensures WellFormed()
      ensures old(Valid()) && old(refreshEnabled) ==> Valid()
      ensures devices == old(devices) + endpoints
      ensures deviceIndex == if devices != [] then 0 else old(deviceIndex)
      ensures LoadBegun(true, call)
    {
      devices := devices + endpoints;
      if |devices| > 0 {
        deviceIndex := 0;
      }
      call := BeginLoad(true);
    }
  }

  /** Ctrl+Enter pressed while a speak started by the button is still
      waiting for the server, on any form whose checks pass: as written, a
      second speak starts, and when the first one finishes the Speak button
      is enabled again although the second is still outstanding. */
  method CtrlEnterOverlap(form: MainForm, esc: string -> string) returns (overlapped: bool)
    requires form.Valid() && form.speakEnabled
    requires SpeakGate(form.input, form.deviceIndex, form.SelectedItem(), form.server).Issue?
    modifies form
    ensures overlapped
    ensures form.speakEnabled && form.speaksInFlight == 1 && !form.Valid()
  {
    var first, second := SpeakThenCtrlEnter(form, esc);
    form.CompleteSpeak(first.value, Failed("timeout"), Failed("timeout"), Played);
    overlapped := first.Some? && second.Some? && form.speakEnabled;
  }

  /** A click on Speak followed by Ctrl+Enter before any answer: as
      written, both start a speak and two are in flight. */
  method SpeakThenCtrlEnter(form: MainForm, esc: string -> string) returns (first: Option<SpeechRequest>, second: Option<SpeechRequest>)
    requires form.Valid() && form.speakEnabled
    requires SpeakGate(form.input, form.deviceIndex, form.SelectedItem(), form.server).Issue?
    modifies form
    ensures first.Some? && second.Some? && first == second
    ensures !form.speakEnabled && form.speaksInFlight == 2
    ensures form.WellFormed()
  {
    ghost var selected := form.SelectedItem();
    first := form.OnSpeakRequest(esc);
    assert form.SelectedItem() == selected && form.WellFormed();
    second := form.OnCtrlEnterAsWritten(esc);
  }

  /** With Ctrl+Enter checking the button, the same keystrokes start one
      speak only, and the button stays disabled until it finishes. */
  method CtrlEnterGuarded(form: MainForm, esc: string -> string) returns (single: bool)
    requires form.Valid() && form.speakEnabled
    requires SpeakGate(form.input, form.deviceIndex, form.SelectedItem(), form.server).Issue?
    modifies form
    ensures single
  {
    var first := form.OnSpeakRequest(esc);
    var second := form.OnSpeakRequest(esc);
    assert !form.speakEnabled;
    form.CompleteSpeak(first.value, Failed("timeout"), Failed("timeout"), Played);
    assert form.Valid();
    single := first.Some? && second.None? && form.speakEnabled;
  }
}
