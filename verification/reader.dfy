/** `PromiseQWebRTCReader`: the reader's state machine. Every callback the
    browser or a settled promise delivers is an `Event`; `Step` returns the
    reader's next fields and the outward `Effect`s the handler performs, in
    order (requests, peer-connection calls, timer calls, consumer
    notifications). The peer connection itself is outside the model: only
    whether the reader holds one is recorded, and the connection and ICE
    states it reports arrive with the events that read them. */
module Reader {
  import opened Results
  import opened Strings
  import opened OfferParser
  import opened TrickleFragment
  import opened HttpStatus
  import opened OfferEditor
  import opened Auth
  import opened IceServers

  const RetryPause: nat := 2000
  const RetrySuffix: string := ", retrying in some seconds"
  const PeerConnectionClosed: string := "peer connection closed"
  const SdpContentType: string := "application/sdp"
  const FragmentContentType: string := "application/trickle-ice-sdpfrag"

  /** The messages of the `TypeError`s thrown when a property is read from
      `null` (the text of the V8 engine): the missing connection's
      `setLocalDescription` and `setRemoteDescription`, and the missing offer
      data's `iceUfrag`. */
  const NullSetLocalDescription: string := "TypeError: Cannot read properties of null (reading 'setLocalDescription')"
  const NullSetRemoteDescription: string := "TypeError: Cannot read properties of null (reading 'setRemoteDescription')"
  const NullIceUfrag: string := "TypeError: Cannot read properties of null (reading 'iceUfrag')"

  datatype ReaderState = Initializing | Running | Restarting | Error | Closed

  datatype PeerState = PeerNew | PeerConnecting | PeerConnected | PeerDisconnected | PeerFailed | PeerClosed
  datatype IceState = IceNew | IceChecking | IceConnected | IceCompleted | IceDisconnected | IceFailed | IceClosed

  /** `pc.connectionState` and `pc.iceConnectionState` when a handler reads them. */
  datatype PeerStatus = PeerStatus(peer: PeerState, ice: IceState)

  /** Where a request goes: the clean stream URL, or the session resource.
      `fetch(null)` requests the relative URL `"null"`. */
  datatype Target = Endpoint(endpoint: Url) | Session(resource: string)

  datatype Request = Request(verb: string, target: Target, headers: seq<(string, string)>, body: string)

  datatype Effect =
    | Fetch(request: Request)
    /** `new RTCPeerConnection`, two receive-only transceivers (video, then
        audio), the three handlers, and `createOffer()`. */
    | CreatePeerConnection(iceServers: seq<IceServer>)
    | SetLocalDescription(sdp: string)
    | SetRemoteDescription(sdp: string)
    | ClosePeerConnection
    /** `window.setTimeout(..., RetryPause)` and `window.clearTimeout`. */
    | ScheduleRestart
    | CancelRestart
    /** `conf.onError`, `conf.onTrack` and `conf.onReady`, when configured. */
    | ReportError(message: string)
    | ReportTrack
    | ReportReady(trackCount: nat)

  datatype Event =
    /** The three capability probes of the constructor settled. */
    | ProbesDone(codecs: seq<string>)
    /** The `OPTIONS` response arrived, with its `Link` header if any. */
    | IceServersResponse(link: Option<string>)
    /** `createOffer()` resolved with this SDP. */
    | OfferCreated(sdp: string)
    /** `setLocalDescription` resolved for this (edited) SDP. */
    | LocalDescriptionSet(sdp: string)
    /** The `POST` response: status, the `error` field of a JSON body, and
        the `Location` header resolved against the stream URL. */
    | OfferResponse(status: nat, bodyError: Option<string>, location: string)
    /** The body of a 201 response was read. */
    | AnswerReceived(sdp: string)
    /** `setRemoteDescription` resolved. */
    | AnswerApplied
    /** A `PATCH` response arrived. */
    | CandidateResponse(patchStatus: nat)
    /** A promise of the negotiation chain, or a `PATCH`, rejected; the
        message is `err.toString()`. */
    | StepFailed(message: string)
    /** `onicecandidate`; `None` is the end-of-candidates event. */
    | LocalCandidate(candidate: Option<Candidate>)
    | Track(trackStatus: PeerStatus)
    | ConnectionStateChange(peerStatus: PeerStatus)
    | RestartTimerFired
    | CleanupCalled

  /** The reader's fields. `restartPending` is `restartTimeout !== null`,
      `hasPeer` is `pc !== null`, and `probesPending` records that the
      constructor's probe promise has not settled yet. */
  datatype Reader = Reader(
    auth: AuthState,
    codecs: seq<string>,
    probesPending: bool,
    state: ReaderState,
    restartPending: bool,
    hasPeer: bool,
    offerData: Option<OfferData>,
    sessionUrl: Option<string>,
    queued: seq<Candidate>,
    streamReady: bool,
    trackCount: nat)

  datatype Outcome = Outcome(reader: Reader, effects: seq<Effect>)

  /** The constructor, up to the start of the capability probes. */
  function Construct(conf: AuthConfig): Reader {
    Reader(ProcessJwtAuth(conf), [], true, Initializing, false, false, None, None, [], false, 0)
  }

  function NoChange(r: Reader): Outcome {
    Outcome(r, [])
  }

  /** `handleError(err)`. */
  function HandleError(r: Reader, message: string): Outcome {
    if r.state == Restarting || r.state == Error then NoChange(r)
    else
      var closing := if r.hasPeer then [ClosePeerConnection] else [];
      var cleared := r.(hasPeer := false, offerData := None, queued := [], streamReady := false, trackCount := 0);
      if r.state == Running then
        Outcome(cleared.(state := Restarting, restartPending := true),
                closing + [ScheduleRestart, ReportError(message + RetrySuffix)])
      else
        Outcome(cleared.(state := Error), closing + [ReportError(message)])
  }

  /** `start()`: a new attempt begins with the `OPTIONS` request. */
  function Start(r: Reader): Outcome {
    Outcome(r.(state := Running, streamReady := false, trackCount := 0), [Fetch(OptionsRequest(r))])
  }

  /** `requestICEServers`. */
  function OptionsRequest(r: Reader): Request {
    Request("OPTIONS", Endpoint(r.auth.cleanUrl), AuthHeaders(r.auth), "")
  }

  function OfferRequest(r: Reader, sdp: string): Request {
    Request("POST", Endpoint(r.auth.cleanUrl), [("Content-Type", SdpContentType)] + AuthHeaders(r.auth), sdp)
  }

  /** `sendLocalCandidates(candidates)` once the fragment is built. */
  function CandidatesRequest(r: Reader, od: OfferData, candidates: seq<Candidate>): Request {
    var target := Session(match r.sessionUrl case Some(u) => u case None => "null");
    Request("PATCH", target,
            [("Content-Type", FragmentContentType), ("If-Match", "*")] + AuthHeaders(r.auth),
            GenerateSdpFragment(od, candidates))
  }

  /** `connectionReady` of `checkReadyState`, given that a connection exists. */
  predicate ConnectionReady(status: PeerStatus) {
    status.peer == PeerConnected || status.ice == IceConnected || status.ice == IceCompleted
  }

  /** `checkReadyState()`. */
  function CheckReady(r: Reader, status: PeerStatus): Outcome {
    if !r.streamReady && r.trackCount > 0 && r.hasPeer && ConnectionReady(status) then
      Outcome(r.(streamReady := true), [ReportReady(r.trackCount)])
    else NoChange(r)
  }

  /** The constructor's `getNonAdvertisedCodecs().then(() => this.start())`. */
  function OnProbesDone(r: Reader, codecs: seq<string>): Outcome {
    if !r.probesPending then NoChange(r)
    else Start(r.(codecs := codecs, probesPending := false))
  }

  /** `linkToIceServers` on the `OPTIONS` response, then
      `setupPeerConnection`: no state check, and a held connection is
      replaced without being closed. */
  function SetupPeerConnection(r: Reader, link: Option<string>): Outcome {
    match LinkToIceServers(link)
    case Err(m) => HandleError(r, m)
    case Ok(servers) => Outcome(r.(hasPeer := true), [CreatePeerConnection(servers)])
  }

  /** The `createOffer()` continuation: edit the offer, record its offer
      data, then set it as the local description. */
  function OnOfferCreated(r: Reader, sdp: string): Outcome {
    match EditOffer(sdp, r.codecs)
    case Err(m) => HandleError(r, ErrorString(m))
    case Ok(edited) =>
      var r1 := r.(offerData := Some(ParseOffer(edited)));
      if r.hasPeer then Outcome(r1, [SetLocalDescription(edited)])
      else HandleError(r1, NullSetLocalDescription)
  }

  /** `sendOffer`: the status check of the `POST` response; a 201 records
      the session URL. */
  function OnOfferResponse(r: Reader, status: nat, bodyError: Option<string>, location: string): Outcome {
    match OfferResponseError(status, bodyError)
    case Some(m) => HandleError(r, ErrorString(m))
    case None => NoChange(r.(sessionUrl := Some(location)))
  }

  /** `setAnswer`: the only step of the chain that checks the state. */
  function SetAnswer(r: Reader, sdp: string): Outcome {
    if r.state != Running then NoChange(r)
    else if !r.hasPeer then HandleError(r, NullSetRemoteDescription)
    else Outcome(r, [SetRemoteDescription(sdp)])
  }

  /** The `setRemoteDescription` continuation: flush the queue. */
  function OnAnswerApplied(r: Reader): Outcome {
    if r.queued == [] then NoChange(r)
    else
      match r.offerData
      case None => HandleError(r, NullIceUfrag)
      case Some(od) => Outcome(r.(queued := []), [Fetch(CandidatesRequest(r, od, r.queued))])
  }

  /** The status check of `sendLocalCandidates`. */
  function OnCandidateResponse(r: Reader, status: nat): Outcome {
    match CandidateResponseError(status)
    case Some(m) => HandleError(r, ErrorString(m))
    case None => NoChange(r)
  }

  /** `onLocalCandidate`. Without offer data the fragment throws inside the
      event handler, where nothing catches it. */
  function OnLocalCandidate(r: Reader, c: Option<Candidate>): Outcome {
    if r.state != Running || c.None? then NoChange(r)
    else if r.sessionUrl.None? then NoChange(r.(queued := r.queued + [c.value]))
    else
      match r.offerData
      case None => NoChange(r)
      case Some(od) => Outcome(r, [Fetch(CandidatesRequest(r, od, [c.value]))])
  }

  /** `onTrack`: in any state. */
  function OnTrack(r: Reader, status: PeerStatus): Outcome {
    var o := CheckReady(r.(trackCount := r.trackCount + 1), status);
    Outcome(o.reader, [ReportTrack] + o.effects)
  }

  /** `onconnectionstatechange`: `onConnectionState` then
      `checkReadyState`. Reading `this.pc!.connectionState` throws first
      when there is no connection. */
  function OnConnectionStateChange(r: Reader, status: PeerStatus): Outcome {
    if !r.hasPeer then NoChange(r)
    else
      var first :=
        if r.state == Running && (status.peer == PeerFailed || status.peer == PeerClosed)
        then HandleError(r, PeerConnectionClosed)
        else NoChange(r);
      var second := CheckReady(first.reader, status);
      Outcome(second.reader, first.effects + second.effects)
  }

  /** The restart timer's callback; a cleared timer never fires. */
  function OnRestartTimer(r: Reader): Outcome {
    if !r.restartPending then NoChange(r)
    else Start(r.(restartPending := false))
  }

  /** `cleanup()`. */
  function Cleanup(r: Reader): Outcome {
    Outcome(r.(restartPending := false, hasPeer := false, sessionUrl := None, offerData := None,
               queued := [], streamReady := false, trackCount := 0, state := Closed),
            (if r.restartPending then [CancelRestart] else []) + (if r.hasPeer then [ClosePeerConnection] else []))
  }

  /** One handler run. */
  function Step(r: Reader, e: Event): Outcome {
    match e
    case ProbesDone(codecs) => OnProbesDone(r, codecs)
    case IceServersResponse(link) => SetupPeerConnection(r, link)
    case OfferCreated(sdp) => OnOfferCreated(r, sdp)
    case LocalDescriptionSet(sdp) => Outcome(r, [Fetch(OfferRequest(r, sdp))])
    case OfferResponse(status, bodyError, location) => OnOfferResponse(r, status, bodyError, location)
    case AnswerReceived(sdp) => SetAnswer(r, sdp)
    case AnswerApplied => OnAnswerApplied(r)
    case CandidateResponse(status) => OnCandidateResponse(r, status)
    case StepFailed(message) => HandleError(r, message)
    case LocalCandidate(c) => OnLocalCandidate(r, c)
    case Track(status) => OnTrack(r, status)
    case ConnectionStateChange(status) => OnConnectionStateChange(r, status)
    case RestartTimerFired => OnRestartTimer(r)
    case CleanupCalled => Cleanup(r)
  }

  /** A sequence of handler runs; the effects in the order performed. */
  function Run(r: Reader, events: seq<Event>): Outcome
    decreases |events|
  {
    if events == [] then NoChange(r)
    else
      var first := Step(r, events[0]);
      var rest := Run(first.reader, events[1..]);
      Outcome(rest.reader, first.effects + rest.effects)
  }
}
