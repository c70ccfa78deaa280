/** What the reader's handlers guarantee, alone and in sequence. */
module ReaderProperties {
  import opened Results
  import opened OfferParser
  import opened TrickleFragment
  import opened HttpStatus
  import opened OfferEditor
  import opened Auth
  import opened IceServers
  import opened Reader

  /** The messages passed to `onError`, in order. */
  function ErrorsReported(effects: seq<Effect>): seq<string>
    decreases |effects|
  {
    if effects == [] then []
    else (if effects[0].ReportError? then [effects[0].message] else []) + ErrorsReported(effects[1..])
  }

  /** How many times `onReady` is called. */
  function ReadyCount(effects: seq<Effect>): nat
    decreases |effects|
  {
    if effects == [] then 0
    else (if effects[0].ReportReady? then 1 else 0) + ReadyCount(effects[1..])
  }

  lemma {:induction false} ErrorsReportedConcat(a: seq<Effect>, b: seq<Effect>)
    ensures ErrorsReported(a + b) == ErrorsReported(a) + ErrorsReported(b)
    decreases |a|
  {
    if a == [] {
      assert a + b == b;
    } else {
      assert (a + b)[0] == a[0] && (a + b)[1..] == a[1..] + b;
      ErrorsReportedConcat(a[1..], b);
    }
  }

  lemma {:induction false} ReadyCountConcat(a: seq<Effect>, b: seq<Effect>)
    ensures ReadyCount(a + b) == ReadyCount(a) + ReadyCount(b)
    decreases |a|
  {
    if a == [] {
      assert a + b == b;
    } else {
      assert (a + b)[0] == a[0] && (a + b)[1..] == a[1..] + b;
      ReadyCountConcat(a[1..], b);
    }
  }

  // ---------------------------------------------------------------------
  // Failure handling
  // ---------------------------------------------------------------------

  /** A failure while running schedules exactly one restart and reports the message
      with the retry suffix; from initializing or closed it enters the error
      state and reports the message as it is; while restarting or in error
      it changes nothing. Every handled failure closes the connection held,
      and drops the offer data, the queue and the readiness, but keeps the
      session URL. */
  lemma FailureClassification(r: Reader, message: string)
    ensures var o := HandleError(r, message);
      && (r.state == Restarting || r.state == Error ==> o == Outcome(r, []))
      && (r.state == Running ==>
            o.reader.state == Restarting && o.reader.restartPending
            && multiset(o.effects)[ScheduleRestart] == 1
            && ErrorsReported(o.effects) == [message + RetrySuffix])
      && (r.state == Initializing || r.state == Closed ==>
            o.reader.state == Error && o.reader.restartPending == r.restartPending
            && ScheduleRestart !in o.effects
            && ErrorsReported(o.effects) == [message])
      && (r.state != Restarting && r.state != Error ==>
            && !o.reader.hasPeer && o.reader.offerData.None? && o.reader.queued == []
            && !o.reader.streamReady && o.reader.trackCount == 0
            && (ClosePeerConnection in o.effects <==> r.hasPeer))
      && o.reader.sessionUrl == r.sessionUrl
  {
    var o := HandleError(r, message);
    if r.state == Running {
      var closing: seq<Effect> := if r.hasPeer then [ClosePeerConnection] else [];
      var tail := [ScheduleRestart, ReportError(message + RetrySuffix)];
      ErrorsReportedConcat(closing, tail);
      assert tail[1..] == [ReportError(message + RetrySuffix)] && tail[1..][1..] == [];
      assert ErrorsReported(closing) == [];
      assert multiset(o.effects) == multiset(closing) + multiset(tail);
    } else if r.state == Initializing || r.state == Closed {
      var closing: seq<Effect> := if r.hasPeer then [ClosePeerConnection] else [];
      ErrorsReportedConcat(closing, [ReportError(message)]);
      assert [ReportError(message)][1..] == [];
      assert ErrorsReported(closing) == [];
    }
  }

  /** A second failure right after a first changes nothing: no second
      teardown, report or timer. */
  lemma FailureAbsorbed(r: Reader, first: string, second: string)
    ensures var o := HandleError(r, first);
      HandleError(o.reader, second) == Outcome(o.reader, [])
  {
  }

  // ---------------------------------------------------------------------
  // The invariant
  // ---------------------------------------------------------------------

  /** The events in three groups, so that a proof about one step has a
      few handlers to consider at a time: the negotiation of an attempt, */
  predicate SetupEvent(e: Event) {
    e.ProbesDone? || e.IceServersResponse? || e.OfferCreated? || e.LocalDescriptionSet?
    || e.OfferResponse? || e.AnswerReceived?
  }

  /** the established session and its candidates, */
  predicate SessionEvent(e: Event) {
    e.AnswerApplied? || e.CandidateResponse? || e.StepFailed? || e.LocalCandidate?
  }

  /** and the connection and the reader's own lifecycle. */
  predicate PeerEvent(e: Event) {
    e.Track? || e.ConnectionStateChange? || e.RestartTimerFired? || e.CleanupCalled?
  }

  /** A restart timer is pending exactly while restarting; no attempt runs
      before the probes settle; a ready stream has a track and a connection. */
  predicate Valid(r: Reader) {
    && (r.restartPending <==> r.state == Restarting)
    && (r.probesPending ==> r.state != Running && r.state != Restarting)
    && (r.streamReady ==> r.trackCount > 0 && r.hasPeer)
  }

  lemma ConstructValid(conf: AuthConfig)
    ensures Valid(Construct(conf))
    ensures Construct(conf).auth == ProcessJwtAuth(conf)
    ensures Construct(conf).state == Initializing && Construct(conf).probesPending
  {
  }

  lemma HandleErrorValid(r: Reader, message: string)
    requires Valid(r)
    ensures Valid(HandleError(r, message).reader)
  {
  }

  lemma CheckReadyValid(r: Reader, status: PeerStatus)
    requires Valid(r)
    ensures Valid(CheckReady(r, status).reader)
    ensures CheckReady(r, status).reader.state == r.state
  {
  }

  /** Every handler keeps the invariant. */
  lemma StepValid(r: Reader, e: Event)
    requires Valid(r)
    ensures Valid(Step(r, e).reader)
  {
    if SetupEvent(e) {
      SetupStepValid(r, e);
    } else if SessionEvent(e) {
      SessionStepValid(r, e);
    } else {
      PeerStepValid(r, e);
    }
  }

  lemma SetupStepValid(r: Reader, e: Event)
    requires Valid(r) && SetupEvent(e)
    ensures Valid(Step(r, e).reader)
  {
    if e.OfferCreated? {
      OfferCreatedValid(r, e.sdp);
    }
  }

  lemma OfferCreatedValid(r: Reader, sdp: string)
    requires Valid(r)
    ensures Valid(OnOfferCreated(r, sdp).reader)
  {
    match EditOffer(sdp, r.codecs)
    case Err(m) =>
      HandleErrorValid(r, ErrorString(m));
    case Ok(edited) =>
      var r1 := r.(offerData := Some(ParseOffer(edited)));
      assert Valid(r1);
      if !r.hasPeer {
        HandleErrorValid(r1, NullSetLocalDescription);
      }
  }

  lemma SessionStepValid(r: Reader, e: Event)
    requires Valid(r) && SessionEvent(e)
    ensures Valid(Step(r, e).reader)
  {
  }

  lemma PeerStepValid(r: Reader, e: Event)
    requires Valid(r) && PeerEvent(e)
    ensures Valid(Step(r, e).reader)
  {
    if e.Track? {
      CheckReadyValid(r.(trackCount := r.trackCount + 1), e.trackStatus);
    } else if e.ConnectionStateChange? {
      var status := e.peerStatus;
      if r.hasPeer {
        if r.state == Running && (status.peer == PeerFailed || status.peer == PeerClosed) {
          HandleErrorValid(r, PeerConnectionClosed);
          CheckReadyValid(HandleError(r, PeerConnectionClosed).reader, status);
        } else {
          CheckReadyValid(r, status);
        }
      }
    }
  }

  lemma {:induction false} RunValid(r: Reader, events: seq<Event>)
    requires Valid(r)
    ensures Valid(Run(r, events).reader)
    decreases |events|
  {
    if events != [] {
      StepValid(r, events[0]);
      RunValid(Step(r, events[0]).reader, events[1..]);
    }
  }

  /** What a failure never does: cancel the timer, make a request, or
      touch the authentication state; it sets the timer only from running. */
  lemma HandleErrorEffects(r: Reader, message: string)
    ensures var o := HandleError(r, message);
      && CancelRestart !in o.effects
      && (ScheduleRestart in o.effects ==> r.state == Running && o.reader.state == Restarting && o.reader.restartPending)
      && (forall k :: 0 <= k < |o.effects| ==> !o.effects[k].Fetch?)
      && o.reader.auth == r.auth
  {
  }

  /** The readiness check only ever announces readiness and sets the flag. */
  lemma CheckReadyEffects(r: Reader, status: PeerStatus)
    ensures var o := CheckReady(r, status);
      && (forall k :: 0 <= k < |o.effects| ==> o.effects[k].ReportReady?)
      && o.reader == r.(streamReady := o.reader.streamReady)
  {
  }

  /** The restart timer is set only when none is pending, and cancelled
      only by `cleanup` when one is. */
  lemma SingleTimer(r: Reader, e: Event)
    requires Valid(r)
    ensures ScheduleRestart in Step(r, e).effects ==>
      !r.restartPending && Step(r, e).reader.restartPending && Step(r, e).reader.state == Restarting
    ensures CancelRestart in Step(r, e).effects ==> r.restartPending && e == CleanupCalled
  {
    if SetupEvent(e) {
      SetupSingleTimer(r, e);
    } else if SessionEvent(e) {
      SessionSingleTimer(r, e);
    } else {
      PeerSingleTimer(r, e);
    }
  }

  lemma SetupSingleTimer(r: Reader, e: Event)
    requires Valid(r) && SetupEvent(e)
    ensures ScheduleRestart in Step(r, e).effects ==>
      !r.restartPending && Step(r, e).reader.restartPending && Step(r, e).reader.state == Restarting
    ensures CancelRestart !in Step(r, e).effects
  {
    if e.IceServersResponse? {
      if LinkToIceServers(e.link).Err? {
        HandleErrorEffects(r, LinkToIceServers(e.link).message);
      }
    } else if e.OfferCreated? {
      var sdp := e.sdp;
      if EditOffer(sdp, r.codecs).Err? {
        HandleErrorEffects(r, ErrorString(EditOffer(sdp, r.codecs).message));
      } else if !r.hasPeer {
        HandleErrorEffects(r.(offerData := Some(ParseOffer(EditOffer(sdp, r.codecs).value))),
                           NullSetLocalDescription);
      }
    } else if e.OfferResponse? {
      if OfferResponseError(e.status, e.bodyError).Some? {
        HandleErrorEffects(r, ErrorString(OfferResponseError(e.status, e.bodyError).value));
      }
    } else if e.AnswerReceived? {
      HandleErrorEffects(r, NullSetRemoteDescription);
    }
  }

  lemma SessionSingleTimer(r: Reader, e: Event)
    requires Valid(r) && SessionEvent(e)
    ensures ScheduleRestart in Step(r, e).effects ==>
      !r.restartPending && Step(r, e).reader.restartPending && Step(r, e).reader.state == Restarting
    ensures CancelRestart in Step(r, e).effects ==> r.restartPending && e == CleanupCalled
  {
    if e.AnswerApplied? {
      HandleErrorEffects(r, NullIceUfrag);
    } else if e.CandidateResponse? {
      if CandidateResponseError(e.patchStatus).Some? {
        HandleErrorEffects(r, ErrorString(CandidateResponseError(e.patchStatus).value));
      }
    } else if e.StepFailed? {
      HandleErrorEffects(r, e.message);
    }
  }

  lemma PeerSingleTimer(r: Reader, e: Event)
    requires Valid(r) && PeerEvent(e)
    ensures ScheduleRestart in Step(r, e).effects ==>
      !r.restartPending && Step(r, e).reader.restartPending && Step(r, e).reader.state == Restarting
    ensures CancelRestart in Step(r, e).effects ==> r.restartPending && e == CleanupCalled
  {
    if e.Track? {
      CheckReadyEffects(r.(trackCount := r.trackCount + 1), e.trackStatus);
    } else if e.ConnectionStateChange? {
      HandleErrorEffects(r, PeerConnectionClosed);
      CheckReadyEffects(r, e.peerStatus);
      CheckReadyEffects(HandleError(r, PeerConnectionClosed).reader, e.peerStatus);
    }
  }

  /** The headers end with the authorization header exactly when there is a
      token. */
  predicate EndsWithAuth(headers: seq<(string, string)>, auth: AuthState) {
    |headers| >= |AuthHeaders(auth)| && headers[|headers| - |AuthHeaders(auth)|..] == AuthHeaders(auth)
  }

  predicate FetchesAuthed(effects: seq<Effect>, auth: AuthState) {
    forall k :: 0 <= k < |effects| && effects[k].Fetch? ==> EndsWithAuth(effects[k].request.headers, auth)
  }

  lemma RequestsAuthed(r: Reader, sdp: string, od: OfferData, cs: seq<Candidate>)
    ensures EndsWithAuth(OptionsRequest(r).headers, r.auth)
    ensures EndsWithAuth(OfferRequest(r, sdp).headers, r.auth)
    ensures EndsWithAuth(CandidatesRequest(r, od, cs).headers, r.auth)
  {
    var a := AuthHeaders(r.auth);
    assert ([("Content-Type", SdpContentType)] + a)[1..] == a;
    assert ([("Content-Type", FragmentContentType), ("If-Match", "*")] + a)[2..] == a;
  }

  /** The authentication state never changes, and every request a handler
      makes ends with the bearer header exactly when there is a token. */
  /** A flush of the candidate queue carries the bearer header. */
  lemma AnswerAppliedAuthed(r: Reader)
    ensures OnAnswerApplied(r).reader.auth == r.auth
    ensures FetchesAuthed(OnAnswerApplied(r).effects, r.auth)
  {
    if r.queued != [] {
      match r.offerData {
        case None =>
          HandleErrorEffects(r, NullIceUfrag);
        case Some(od) =>
          var req := CandidatesRequest(r, od, r.queued);
          RequestsAuthed(r, "", od, r.queued);
          FetchAuthed(req, r.auth);
      }
    }
  }

  /** A candidate sent on its own carries the bearer header. */
  lemma LocalCandidateAuthed(r: Reader, c: Option<Candidate>)
    ensures OnLocalCandidate(r, c).reader.auth == r.auth
    ensures FetchesAuthed(OnLocalCandidate(r, c).effects, r.auth)
  {
    if r.state == Running && c.Some? && r.sessionUrl.Some? && r.offerData.Some? {
      var req := CandidatesRequest(r, r.offerData.value, [c.value]);
      RequestsAuthed(r, "", r.offerData.value, [c.value]);
      FetchAuthed(req, r.auth);
    }
  }

  lemma FetchAuthed(req: Request, auth: AuthState)
    requires EndsWithAuth(req.headers, auth)
    ensures FetchesAuthed([Fetch(req)], auth)
  {
  }

  lemma RequestsCarryAuth(r: Reader, e: Event)
    ensures Step(r, e).reader.auth == r.auth
    ensures FetchesAuthed(Step(r, e).effects, r.auth)
  {
    if SetupEvent(e) {
      SetupRequestsAuthed(r, e);
    } else if SessionEvent(e) {
      SessionRequestsAuthed(r, e);
    } else {
      PeerRequestsAuthed(r, e);
    }
  }

  lemma SetupRequestsAuthed(r: Reader, e: Event)
    requires SetupEvent(e)
    ensures Step(r, e).reader.auth == r.auth
    ensures FetchesAuthed(Step(r, e).effects, r.auth)
  {
    if e.ProbesDone? {
      RequestsAuthed(r.(codecs := e.codecs, probesPending := false), "", EmptyOffer, []);
    } else if e.IceServersResponse? {
      if LinkToIceServers(e.link).Err? {
        HandleErrorEffects(r, LinkToIceServers(e.link).message);
      }
    } else if e.OfferCreated? {
      var sdp := e.sdp;
      if EditOffer(sdp, r.codecs).Err? {
        HandleErrorEffects(r, ErrorString(EditOffer(sdp, r.codecs).message));
      } else if !r.hasPeer {
        HandleErrorEffects(r.(offerData := Some(ParseOffer(EditOffer(sdp, r.codecs).value))),
                           NullSetLocalDescription);
      }
    } else if e.LocalDescriptionSet? {
      RequestsAuthed(r, e.sdp, EmptyOffer, []);
    } else if e.OfferResponse? {
      if OfferResponseError(e.status, e.bodyError).Some? {
        HandleErrorEffects(r, ErrorString(OfferResponseError(e.status, e.bodyError).value));
      }
    } else {
      HandleErrorEffects(r, NullSetRemoteDescription);
    }
  }

  lemma SessionRequestsAuthed(r: Reader, e: Event)
    requires SessionEvent(e)
    ensures Step(r, e).reader.auth == r.auth
    ensures FetchesAuthed(Step(r, e).effects, r.auth)
  {
    if e.AnswerApplied? {
      AnswerAppliedAuthed(r);
    } else if e.CandidateResponse? {
      if CandidateResponseError(e.patchStatus).Some? {
        HandleErrorEffects(r, ErrorString(CandidateResponseError(e.patchStatus).value));
      }
    } else if e.StepFailed? {
      HandleErrorEffects(r, e.message);
    } else if e.LocalCandidate? {
      LocalCandidateAuthed(r, e.candidate);
    }
  }

  lemma PeerRequestsAuthed(r: Reader, e: Event)
    requires PeerEvent(e)
    ensures Step(r, e).reader.auth == r.auth
    ensures FetchesAuthed(Step(r, e).effects, r.auth)
  {
    if e.Track? {
      CheckReadyEffects(r.(trackCount := r.trackCount + 1), e.trackStatus);
    } else if e.ConnectionStateChange? {
      HandleErrorEffects(r, PeerConnectionClosed);
      CheckReadyEffects(r, e.peerStatus);
      CheckReadyEffects(HandleError(r, PeerConnectionClosed).reader, e.peerStatus);
    } else if e.RestartTimerFired? {
      RequestsAuthed(r.(restartPending := false), "", EmptyOffer, []);
    }
  }

  // ---------------------------------------------------------------------
  // Readiness
  // ---------------------------------------------------------------------

  /** The `onReady` calls still possible without a new connection. */
  function ReadyBudget(r: Reader): nat {
    if r.streamReady || !r.hasPeer then 0 else 1
  }

  /** Events after which readiness can be announced anew: a new attempt, or
      a new connection. */
  predicate Renews(e: Event) {
    e.ProbesDone? || e.RestartTimerFired? || e.IceServersResponse?
  }

  lemma CheckReadyBudget(r: Reader, status: PeerStatus)
    ensures ReadyCount(CheckReady(r, status).effects) + ReadyBudget(CheckReady(r, status).reader) <= ReadyBudget(r)
    ensures CheckReady(r, status).reader.hasPeer == r.hasPeer
  {
    assert ReadyCount([ReportReady(r.trackCount)]) == 1;
  }

  lemma HandleErrorBudget(r: Reader, message: string)
    ensures ReadyCount(HandleError(r, message).effects) == 0
    ensures ReadyBudget(HandleError(r, message).reader) <= ReadyBudget(r)
  {
    var closing: seq<Effect> := if r.hasPeer then [ClosePeerConnection] else [];
    assert ReadyCount(closing) == 0;
    if r.state == Running {
      var tail := [ScheduleRestart, ReportError(message + RetrySuffix)];
      ReadyCountConcat(closing, tail);
      assert tail[1..] == [ReportError(message + RetrySuffix)] && tail[1..][1..] == [];
    } else if r.state != Restarting && r.state != Error {
      ReadyCountConcat(closing, [ReportError(message)]);
      assert [ReportError(message)][1..] == [];
    }
  }

  /** One handler run announces readiness at most once, only when the
      stream was not ready, and never more often than the budget allows. */
  lemma StepReadyBudget(r: Reader, e: Event)
    requires !Renews(e)
    ensures ReadyCount(Step(r, e).effects) + ReadyBudget(Step(r, e).reader) <= ReadyBudget(r)
  {
    if SetupEvent(e) {
      SetupReadyBudget(r, e);
    } else if SessionEvent(e) {
      SessionReadyBudget(r, e);
    } else {
      PeerReadyBudget(r, e);
    }
  }

  lemma SetupReadyBudget(r: Reader, e: Event)
    requires !Renews(e) && SetupEvent(e)
    ensures ReadyCount(Step(r, e).effects) + ReadyBudget(Step(r, e).reader) <= ReadyBudget(r)
  {
    if e.OfferCreated? {
      var sdp := e.sdp;
      if EditOffer(sdp, r.codecs).Err? {
        HandleErrorBudget(r, ErrorString(EditOffer(sdp, r.codecs).message));
      } else if !r.hasPeer {
        HandleErrorBudget(r.(offerData := Some(ParseOffer(EditOffer(sdp, r.codecs).value))),
                          NullSetLocalDescription);
      }
    } else if e.OfferResponse? {
      if OfferResponseError(e.status, e.bodyError).Some? {
        HandleErrorBudget(r, ErrorString(OfferResponseError(e.status, e.bodyError).value));
      }
    } else if e.AnswerReceived? {
      if r.state == Running && !r.hasPeer {
        HandleErrorBudget(r, NullSetRemoteDescription);
      } else if r.state == Running {
        assert ReadyCount([SetRemoteDescription(e.sdp)]) == 0;
      }
    }
  }

  lemma SessionReadyBudget(r: Reader, e: Event)
    requires !Renews(e) && SessionEvent(e)
    ensures ReadyCount(Step(r, e).effects) + ReadyBudget(Step(r, e).reader) <= ReadyBudget(r)
  {
    if e.AnswerApplied? {
      if r.queued != [] && r.offerData.None? {
        HandleErrorBudget(r, NullIceUfrag);
      } else if r.queued != [] {
        assert ReadyCount([Fetch(CandidatesRequest(r, r.offerData.value, r.queued))]) == 0;
      }
    } else if e.CandidateResponse? {
      if CandidateResponseError(e.patchStatus).Some? {
        HandleErrorBudget(r, ErrorString(CandidateResponseError(e.patchStatus).value));
      }
    } else if e.StepFailed? {
      HandleErrorBudget(r, e.message);
    } else if e.LocalCandidate? {
      var c := e.candidate;
      if r.state == Running && c.Some? && r.sessionUrl.Some? && r.offerData.Some? {
        assert ReadyCount([Fetch(CandidatesRequest(r, r.offerData.value, [c.value]))]) == 0;
      }
    }
  }

  lemma PeerReadyBudget(r: Reader, e: Event)
    requires !Renews(e) && PeerEvent(e)
    ensures ReadyCount(Step(r, e).effects) + ReadyBudget(Step(r, e).reader) <= ReadyBudget(r)
  {
    if e.Track? {
      var r1 := r.(trackCount := r.trackCount + 1);
      CheckReadyBudget(r1, e.trackStatus);
      ReadyCountConcat([ReportTrack], CheckReady(r1, e.trackStatus).effects);
    } else if e.ConnectionStateChange? {
      var status := e.peerStatus;
      if r.hasPeer {
        var first :=
          if r.state == Running && (status.peer == PeerFailed || status.peer == PeerClosed)
          then HandleError(r, PeerConnectionClosed)
          else NoChange(r);
        HandleErrorBudget(r, PeerConnectionClosed);
        CheckReadyBudget(first.reader, status);
        ReadyCountConcat(first.effects, CheckReady(first.reader, status).effects);
      }
    } else if e.CleanupCalled? {
      ReadyCountConcat(if r.restartPending then [CancelRestart] else [],
                       if r.hasPeer then [ClosePeerConnection] else []);
    }
  }

  /** Between two renewals — a new attempt or a new connection — `onReady`
      is called at most once. */
  lemma {:induction false} ReadyAtMostOnce(r: Reader, events: seq<Event>)
    requires forall k :: 0 <= k < |events| ==> !Renews(events[k])
    ensures ReadyCount(Run(r, events).effects) + ReadyBudget(Run(r, events).reader) <= ReadyBudget(r)
    ensures ReadyCount(Run(r, events).effects) <= 1
    decreases |events|
  {
    if events != [] {
      var first := Step(r, events[0]);
      StepReadyBudget(r, events[0]);
      ReadyAtMostOnce(first.reader, events[1..]);
      ReadyCountConcat(first.effects, Run(first.reader, events[1..]).effects);
    }
  }

  /** A track before the connection is up announces nothing; the
      connection coming up with one track announces readiness with that
      count; a second track announces nothing more. */
  lemma ReadinessScenario(r: Reader)
    requires r.state == Running && r.hasPeer && !r.streamReady && r.trackCount == 0
    ensures var connecting := PeerStatus(PeerConnecting, IceChecking);
      var connected := PeerStatus(PeerConnected, IceConnected);
      var o := Run(r, [Track(connecting), ConnectionStateChange(connected), Track(connected)]);
      && o.effects == [ReportTrack, ReportReady(1), ReportTrack]
      && o.reader.streamReady && o.reader.trackCount == 2
  {
    var connecting := PeerStatus(PeerConnecting, IceChecking);
    var connected := PeerStatus(PeerConnected, IceConnected);
    var events := [Track(connecting), ConnectionStateChange(connected), Track(connected)];
    var r1 := r.(trackCount := 1);
    var r2 := r1.(streamReady := true);
    var r3 := r2.(trackCount := 2);
    assert Step(r, events[0]) == Outcome(r1, [ReportTrack]);
    assert Step(r1, events[1]) == Outcome(r2, [ReportReady(1)]);
    assert Step(r2, events[2]) == Outcome(r3, [ReportTrack]);
    assert events[1..] == [events[1], events[2]];
    assert events[1..][1..] == [events[2]];
    assert events[1..][1..][1..] == [];
    assert Run(r2, events[1..][1..]) == Outcome(r3, [ReportTrack]);
    assert Run(r1, events[1..]) == Outcome(r3, [ReportReady(1), ReportTrack]);
  }

  /** `onTrack` counts the track and reports it first; it then announces
      readiness, with the new count, exactly when the stream was not ready,
      a connection is held, and the browser reports the connection
      (`connectionState`) or ICE (`iceConnectionState`) as connected, or
      ICE as completed. */
  lemma TrackReadiness(r: Reader, s: PeerStatus)
    ensures var o := Step(r, Track(s));
      var up := s.peer == PeerConnected || s.ice == IceConnected || s.ice == IceCompleted;
      && |o.effects| >= 1 && o.effects[0] == ReportTrack
      && o.reader.trackCount == r.trackCount + 1
      && (ReadyCount(o.effects) == 1 <==> !r.streamReady && r.hasPeer && up)
      && ReadyCount(o.effects) <= 1
      && (forall k :: 0 <= k < |o.effects| && o.effects[k].ReportReady? ==> o.effects[k].trackCount == r.trackCount + 1)
      && o.reader == r.(trackCount := r.trackCount + 1, streamReady := r.streamReady || (r.hasPeer && up))
  {
    var r1 := r.(trackCount := r.trackCount + 1);
    ReadyCountConcat([ReportTrack], CheckReady(r1, s).effects);
    assert ReadyCount([ReportReady(r1.trackCount)]) == 1;
  }

  /** A connection-state change with no connection held changes nothing.
      With one, a failed or closed connection while running is handled as
      a failure, which drops the connection so that nothing is announced;
      otherwise readiness is announced, with the current count, exactly
      when the stream was not ready, a track was counted and the browser
      reports the connection or ICE as connected, or ICE as completed. */
  lemma ConnectionStateReadiness(r: Reader, s: PeerStatus)
    ensures var o := Step(r, ConnectionStateChange(s));
      var up := s.peer == PeerConnected || s.ice == IceConnected || s.ice == IceCompleted;
      var fails := r.state == Running && (s.peer == PeerFailed || s.peer == PeerClosed);
      && (!r.hasPeer ==> o == Outcome(r, []))
      && (r.hasPeer && fails ==>
            && o.reader.state == Restarting && !o.reader.hasPeer
            && ErrorsReported(o.effects) == [PeerConnectionClosed + RetrySuffix])
      && (ReadyCount(o.effects) == 1 <==> r.hasPeer && !fails && !r.streamReady && r.trackCount > 0 && up)
      && ReadyCount(o.effects) <= 1
      && (forall k :: 0 <= k < |o.effects| && o.effects[k].ReportReady? ==> o.effects[k].trackCount == r.trackCount)
  {
    assert Step(r, ConnectionStateChange(s)) == OnConnectionStateChange(r, s);
    if r.hasPeer {
      if r.state == Running && (s.peer == PeerFailed || s.peer == PeerClosed) {
        ConnectionFailsQuietly(r, s);
      } else {
        ConnectionCheckedForReadiness(r, s);
      }
    }
  }

  lemma ConnectionFailsQuietly(r: Reader, s: PeerStatus)
    requires r.hasPeer && r.state == Running && (s.peer == PeerFailed || s.peer == PeerClosed)
    ensures var o := OnConnectionStateChange(r, s);
      && o.reader.state == Restarting && !o.reader.hasPeer
      && ErrorsReported(o.effects) == [PeerConnectionClosed + RetrySuffix]
      && ReadyCount(o.effects) == 0
      && (forall k :: 0 <= k < |o.effects| ==> !o.effects[k].ReportReady?)
  {
    var first := HandleError(r, PeerConnectionClosed);
    FailureClassification(r, PeerConnectionClosed);
    HandleErrorBudget(r, PeerConnectionClosed);
    assert OnConnectionStateChange(r, s).effects == first.effects + [];
    assert first.effects + [] == first.effects;
    NoReadyReported(first.effects);
  }

  lemma ConnectionCheckedForReadiness(r: Reader, s: PeerStatus)
    requires r.hasPeer && !(r.state == Running && (s.peer == PeerFailed || s.peer == PeerClosed))
    ensures var o := OnConnectionStateChange(r, s);
      var up := s.peer == PeerConnected || s.ice == IceConnected || s.ice == IceCompleted;
      && o == CheckReady(r, s)
      && (ReadyCount(o.effects) == 1 <==> !r.streamReady && r.trackCount > 0 && up)
      && ReadyCount(o.effects) <= 1
      && (forall k :: 0 <= k < |o.effects| && o.effects[k].ReportReady? ==> o.effects[k].trackCount == r.trackCount)
  {
    assert [] + CheckReady(r, s).effects == CheckReady(r, s).effects;
    assert ReadyCount([ReportReady(r.trackCount)]) == 1;
  }

  /** Effects that announce no readiness hold no `ReportReady`. */
  lemma {:induction false} NoReadyReported(effects: seq<Effect>)
    requires ReadyCount(effects) == 0
    ensures forall k :: 0 <= k < |effects| ==> !effects[k].ReportReady?
    decreases |effects|
  {
    if effects != [] {
      NoReadyReported(effects[1..]);
      assert forall k :: 1 <= k < |effects| ==> effects[k] == effects[1..][k - 1];
    }
  }

  // ---------------------------------------------------------------------
  // Candidate delivery
  // ---------------------------------------------------------------------

  function Candidates(cs: seq<Candidate>): (es: seq<Event>)
    ensures |es| == |cs|
    ensures forall k :: 0 <= k < |cs| ==> es[k] == LocalCandidate(Some(cs[k]))
  {
    seq(|cs|, k requires 0 <= k < |cs| => LocalCandidate(Some(cs[k])))
  }

  /** Before the session URL is known, candidates are queued in arrival
      order and nothing is sent. */
  lemma {:induction false} CandidatesQueued(r: Reader, cs: seq<Candidate>)
    requires r.state == Running && r.sessionUrl.None?
    ensures Run(r, Candidates(cs)) == Outcome(r.(queued := r.queued + cs), [])
    decreases |cs|
  {
    if cs == [] {
      assert r.queued + cs == r.queued;
    } else {
      var r1 := r.(queued := r.queued + [cs[0]]);
      var es := Candidates(cs);
      assert es[0] == LocalCandidate(Some(cs[0]));
      QueueStep(r, cs[0]);
      assert es[1..] == Candidates(cs[1..]);
      CandidatesQueued(r1, cs[1..]);
      RunFirst(r, es, Outcome(r1, []));
      assert r1.queued + cs[1..] == r.queued + cs;
    }
  }

  /** `Run` after a first step whose outcome is known. */
  lemma RunFirst(r: Reader, events: seq<Event>, first: Outcome)
    requires events != [] && Step(r, events[0]) == first
    ensures Run(r, events) == Outcome(Run(first.reader, events[1..]).reader,
                                      first.effects + Run(first.reader, events[1..]).effects)
  {
  }

  lemma QueueStep(r: Reader, c: Candidate)
    requires r.state == Running && r.sessionUrl.None?
    ensures Step(r, LocalCandidate(Some(c))) == Outcome(r.(queued := r.queued + [c]), [])
  {
  }

  /** Candidates produced while the offer is in flight are queued, and once
      the answer is applied they leave in one `PATCH` to the session URL,
      whose fragment is built from all of them in order; the queue is then
      empty. */
  lemma QueueThenFlush(r: Reader, od: OfferData, cs: seq<Candidate>, location: string, answer: string)
    requires r.state == Running && r.hasPeer && r.offerData == Some(od)
    requires r.sessionUrl.None? && r.queued == [] && cs != []
    ensures var queued := Run(r, Candidates(cs));
      var o := Run(queued.reader, [OfferResponse(201, None, location), AnswerReceived(answer), AnswerApplied]);
      && queued.effects == [] && queued.reader.queued == cs
      && o.reader.queued == []
      && o.reader.sessionUrl == Some(location)
      && o.effects == [SetRemoteDescription(answer), Fetch(CandidatesRequest(o.reader, od, cs))]
      && CandidatesRequest(o.reader, od, cs).target == Session(location)
      && CandidatesRequest(o.reader, od, cs).body == GenerateSdpFragment(od, cs)
  {
    CandidatesQueued(r, cs);
    assert r.queued + cs == cs;
    var r1 := r.(queued := cs);
    assert Run(r, Candidates(cs)) == Outcome(r1, []);
    FlushTail(r1, od, location, answer);
    FlushRequest(r1.(sessionUrl := Some(location), queued := []), od, cs);
  }

  /** The flushing request goes to the session resource and carries the
      fragment of the queued candidates. */
  lemma FlushRequest(r: Reader, od: OfferData, cs: seq<Candidate>)
    requires r.sessionUrl.Some?
    ensures CandidatesRequest(r, od, cs).target == Session(r.sessionUrl.value)
    ensures CandidatesRequest(r, od, cs).body == GenerateSdpFragment(od, cs)
  {
  }

  /** The tail of `QueueThenFlush`, from the reader holding the queue. */
  lemma FlushTail(r: Reader, od: OfferData, location: string, answer: string)
    requires r.state == Running && r.hasPeer && r.offerData == Some(od) && r.queued != []
    ensures var o := Run(r, [OfferResponse(201, None, location), AnswerReceived(answer), AnswerApplied]);
      var r2 := r.(sessionUrl := Some(location));
      o == Outcome(r2.(queued := []), [SetRemoteDescription(answer), Fetch(CandidatesRequest(r2, od, r.queued))])
      && CandidatesRequest(r2, od, r.queued) == CandidatesRequest(r2.(queued := []), od, r.queued)
  {
    var tail := [OfferResponse(201, None, location), AnswerReceived(answer), AnswerApplied];
    var r2 := r.(sessionUrl := Some(location));
    var f := Fetch(CandidatesRequest(r2, od, r.queued));
    AcceptedStep(r, location);
    AnswerStep(r2, answer);
    FlushStep(r2, od);
    assert tail[1..] == [tail[1], tail[2]] && tail[1..][1..] == [tail[2]] && tail[1..][1..][1..] == [];
    assert Run(r2, tail[1..][1..]) == Outcome(r2.(queued := []), [f]);
    assert Run(r2, tail[1..]) == Outcome(r2.(queued := []), [SetRemoteDescription(answer), f]);
  }

  lemma AcceptedStep(r: Reader, location: string)
    ensures Step(r, OfferResponse(201, None, location)) == Outcome(r.(sessionUrl := Some(location)), [])
  {
  }

  lemma AnswerStep(r: Reader, answer: string)
    requires r.state == Running && r.hasPeer
    ensures Step(r, AnswerReceived(answer)) == Outcome(r, [SetRemoteDescription(answer)])
  {
  }

  lemma FlushStep(r: Reader, od: OfferData)
    requires r.offerData == Some(od) && r.queued != []
    ensures Step(r, AnswerApplied) == Outcome(r.(queued := []), [Fetch(CandidatesRequest(r, od, r.queued))])
  {
  }

  /** Once the session URL is known, each candidate is sent on its own at
      once. */
  lemma CandidateSentAlone(r: Reader, od: OfferData, c: Candidate)
    requires r.state == Running && r.sessionUrl.Some? && r.offerData == Some(od)
    ensures Step(r, LocalCandidate(Some(c))) == Outcome(r, [Fetch(CandidatesRequest(r, od, [c]))])
    ensures CandidatesRequest(r, od, [c]).target == Session(r.sessionUrl.value)
  {
  }

  /** The stale-result guards: an answer, and a local candidate, are
      ignored unless the reader is running. */
  lemma GuardsWhenNotRunning(r: Reader, answer: string, c: Option<Candidate>)
    requires r.state != Running
    ensures Step(r, AnswerReceived(answer)) == Outcome(r, [])
    ensures Step(r, LocalCandidate(c)) == Outcome(r, [])
  {
  }

  /** In every state, the end-of-candidates event is ignored, and an
      applied answer sends nothing when no candidate is queued. */
  lemma NothingToSend(r: Reader)
    ensures Step(r, LocalCandidate(None)) == Outcome(r, [])
    ensures r.queued == [] ==> Step(r, AnswerApplied) == Outcome(r, [])
  {
  }

  /** A failure keeps the session URL, so after the restart the new
      attempt's candidates go straight to the previous attempt's session
      resource instead of being queued until the new offer is accepted. */
  lemma StaleSessionAfterRestart(r: Reader, failure: string, sdp: string, c: Candidate)
    requires Valid(r) && r.state == Running && r.sessionUrl.Some?
    requires EditOffer(sdp, r.codecs).Ok?
    ensures var r4 := Step(Step(Step(Step(r, StepFailed(failure)).reader, RestartTimerFired).reader,
                                IceServersResponse(None)).reader, OfferCreated(sdp)).reader;
      var od := ParseOffer(EditOffer(sdp, r.codecs).value);
      && r4.state == Running && r4.queued == []
      && Step(r4, LocalCandidate(Some(c))) == Outcome(r4, [Fetch(CandidatesRequest(r4, od, [c]))])
      && CandidatesRequest(r4, od, [c]).target == Session(r.sessionUrl.value)
  {
    var r4 := Step(Step(Step(Step(r, StepFailed(failure)).reader, RestartTimerFired).reader,
                        IceServersResponse(None)).reader, OfferCreated(sdp)).reader;
    RestartSteps(r, failure, sdp);
    CandidateSentAlone(r4, ParseOffer(EditOffer(sdp, r.codecs).value), c);
  }

  /** The reader through the restart of `StaleSessionAfterRestart`: running
      again, with a connection and offer data, an empty queue, and the old
      session URL. */
  lemma RestartSteps(r: Reader, failure: string, sdp: string)
    requires Valid(r) && r.state == Running && r.sessionUrl.Some?
    requires EditOffer(sdp, r.codecs).Ok?
    ensures var r4 := Step(Step(Step(Step(r, StepFailed(failure)).reader, RestartTimerFired).reader,
                                IceServersResponse(None)).reader, OfferCreated(sdp)).reader;
      && r4.state == Running && r4.hasPeer && r4.queued == [] && r4.sessionUrl == r.sessionUrl
      && r4.offerData == Some(ParseOffer(EditOffer(sdp, r.codecs).value))
  {
    var r1 := Step(r, StepFailed(failure)).reader;
    assert r1.state == Restarting && r1.restartPending && r1.sessionUrl == r.sessionUrl && r1.queued == [];
    assert r1.codecs == r.codecs;
    var r2 := Step(r1, RestartTimerFired).reader;
    assert r2.state == Running && r2.codecs == r.codecs && r2.sessionUrl == r.sessionUrl && r2.queued == [];
    assert LinkToIceServers(None) == Ok([]);
    var r3 := Step(r2, IceServersResponse(None)).reader;
    assert r3 == r2.(hasPeer := true);
  }

  // ---------------------------------------------------------------------
  // Starting an attempt and negotiating
  // ---------------------------------------------------------------------

  /** A pending restart timer starts a new attempt: the reader runs again
      with no track and no readiness, and asks the stream's endpoint for
      its ICE servers with an `OPTIONS` request that carries the
      credentials and no body. A timer that is no longer pending does
      nothing. */
  lemma RestartStartsAttempt(r: Reader)
    ensures r.restartPending ==>
      Step(r, RestartTimerFired)
        == Outcome(r.(restartPending := false, state := Running, streamReady := false, trackCount := 0),
                   [Fetch(OptionsRequest(r))])
    ensures !r.restartPending ==> Step(r, RestartTimerFired) == Outcome(r, [])
    ensures OptionsRequest(r) == Request("OPTIONS", Endpoint(r.auth.cleanUrl), AuthHeaders(r.auth), "")
  {
  }

  /** Settled capability probes record the supported codecs and start the
      first attempt, as the restart timer does; probes that settle a second
      time do nothing. */
  lemma ProbesStartAttempt(r: Reader, codecs: seq<string>)
    ensures r.probesPending ==>
      Step(r, ProbesDone(codecs))
        == Outcome(r.(codecs := codecs, probesPending := false, state := Running,
                      streamReady := false, trackCount := 0),
                   [Fetch(OptionsRequest(r))])
    ensures !r.probesPending ==> Step(r, ProbesDone(codecs)) == Outcome(r, [])
  {
  }

  /** The negotiation succeeds up to the offer: the ICE servers of the
      `Link` header (none when it is missing) configure a new connection, the offer is edited for the
      supported codecs and its ufrag, password and media lines are kept,
      the edited offer becomes the local description, and that same text
      is posted to the stream's endpoint as `application/sdp` with the
      credentials. */
  lemma NegotiationScenario(r: Reader, link: Option<string>, servers: seq<IceServer>, sdp: string, edited: string)
    requires LinkToIceServers(link) == Ok(servers)
    requires EditOffer(sdp, r.codecs) == Ok(edited)
    ensures var o := Run(r, [IceServersResponse(link), OfferCreated(sdp), LocalDescriptionSet(edited)]);
      var r2 := r.(hasPeer := true, offerData := Some(ParseOffer(edited)));
      && o.reader == r2
      && o.effects == [CreatePeerConnection(servers), SetLocalDescription(edited), Fetch(OfferRequest(r2, edited))]
    ensures var req := OfferRequest(r, edited);
      && req.verb == "POST" && req.target == Endpoint(r.auth.cleanUrl) && req.body == edited
      && req.headers == [("Content-Type", "application/sdp")] + AuthHeaders(r.auth)
  {
    var events := [IceServersResponse(link), OfferCreated(sdp), LocalDescriptionSet(edited)];
    var r1 := r.(hasPeer := true);
    SetupStep(r, link, servers);
    OfferPosted(r1, sdp, edited);
    assert events[1..] == [OfferCreated(sdp), LocalDescriptionSet(edited)];
    RunFirst(r, events, Outcome(r1, [CreatePeerConnection(servers)]));
  }

  /** The offer set as local description, then posted. */
  lemma OfferPosted(r: Reader, sdp: string, edited: string)
    requires r.hasPeer && EditOffer(sdp, r.codecs) == Ok(edited)
    ensures var r2 := r.(offerData := Some(ParseOffer(edited)));
      Run(r, [OfferCreated(sdp), LocalDescriptionSet(edited)])
        == Outcome(r2, [SetLocalDescription(edited), Fetch(OfferRequest(r2, edited))])
  {
    var events := [OfferCreated(sdp), LocalDescriptionSet(edited)];
    var r2 := r.(offerData := Some(ParseOffer(edited)));
    OfferCreatedStep(r, sdp, edited);
    assert Step(r2, events[1]) == Outcome(r2, [Fetch(OfferRequest(r2, edited))]);
    assert events[1..] == [events[1]] && events[1..][1..] == [];
    assert Run(r2, events[1..]) == Outcome(r2, [Fetch(OfferRequest(r2, edited))]);
  }

  lemma SetupStep(r: Reader, link: Option<string>, servers: seq<IceServer>)
    requires LinkToIceServers(link) == Ok(servers)
    ensures Step(r, IceServersResponse(link)) == Outcome(r.(hasPeer := true), [CreatePeerConnection(servers)])
  {
  }

  lemma OfferCreatedStep(r: Reader, sdp: string, edited: string)
    requires r.hasPeer && EditOffer(sdp, r.codecs) == Ok(edited)
    ensures Step(r, OfferCreated(sdp))
      == Outcome(r.(offerData := Some(ParseOffer(edited))), [SetLocalDescription(edited)])
  {
  }

  /** A failure of the `OPTIONS` exchange goes to the error handler with
      the `Link` header's own message, and a rejected promise with its
      string form. */
  lemma SetupFailuresRouted(r: Reader, link: Option<string>, message: string)
    ensures LinkToIceServers(link).Err? ==>
      Step(r, IceServersResponse(link)) == HandleError(r, LinkToIceServers(link).message)
    ensures Step(r, StepFailed(message)) == HandleError(r, message)
  {
    var servers := LinkToIceServers(link);
    assert Step(r, IceServersResponse(link)) == SetupPeerConnection(r, link);
    if servers.Err? {
      assert SetupPeerConnection(r, link) == HandleError(r, servers.message);
    }
  }

  /** A failure while preparing the offer goes to the error handler: the
      string form of an offer-editing error, or, when the connection is
      gone, the text of the null dereference, after the offer data was
      recorded. */
  lemma OfferFailuresRouted(r: Reader, sdp: string)
    ensures EditOffer(sdp, r.codecs).Err? ==>
      Step(r, OfferCreated(sdp)) == HandleError(r, ErrorString(EditOffer(sdp, r.codecs).message))
    ensures EditOffer(sdp, r.codecs).Ok? && !r.hasPeer ==>
      Step(r, OfferCreated(sdp))
        == HandleError(r.(offerData := Some(ParseOffer(EditOffer(sdp, r.codecs).value))), NullSetLocalDescription)
  {
  }

  /** A rejected offer goes to the error handler with the string form of
      its status text. */
  lemma OfferRejectedRouted(r: Reader, status: nat, bodyError: Option<string>, location: string)
    ensures OfferResponseError(status, bodyError).Some? ==>
      Step(r, OfferResponse(status, bodyError, location))
        == HandleError(r, ErrorString(OfferResponseError(status, bodyError).value))
  {
  }

  /** A rejected candidate request goes to the error handler with the
      string form of its status text. */
  lemma CandidatesRejectedRouted(r: Reader, status: nat)
    ensures CandidateResponseError(status).Some? ==>
      Step(r, CandidateResponse(status)) == HandleError(r, ErrorString(CandidateResponseError(status).value))
  {
  }

  /** An answer while the connection is gone, and queued candidates
      without offer data, go to the error handler with the text of the
      null dereference. */
  lemma AnswerFailuresRouted(r: Reader, answer: string)
    ensures r.state == Running && !r.hasPeer ==>
      Step(r, AnswerReceived(answer)) == HandleError(r, NullSetRemoteDescription)
    ensures r.queued != [] && r.offerData.None? ==>
      Step(r, AnswerApplied) == HandleError(r, NullIceUfrag)
  {
  }

  // ---------------------------------------------------------------------
  // Closing
  // ---------------------------------------------------------------------

  /** `cleanup()` cancels a pending restart and closes a held connection,
      and leaves a closed reader with no per-attempt state; a second call
      does nothing more. */
  lemma CleanupClears(r: Reader)
    ensures var o := Step(r, CleanupCalled);
      && o.reader.state == Closed && !o.reader.restartPending && !o.reader.hasPeer
      && o.reader.sessionUrl.None? && o.reader.offerData.None? && o.reader.queued == []
      && !o.reader.streamReady && o.reader.trackCount == 0
      && o.reader.codecs == r.codecs && o.reader.probesPending == r.probesPending
      && o.reader.auth == r.auth
      && (CancelRestart in o.effects <==> r.restartPending)
      && (ClosePeerConnection in o.effects <==> r.hasPeer)
      && Step(o.reader, CleanupCalled) == Outcome(o.reader, [])
  {
  }

  /** Closed is not final: a later failure enters the error state and is
      reported, and probes that settle after `cleanup()` start an attempt. */
  lemma ClosedIsNotFinal(r: Reader, failure: string, codecs: seq<string>)
    ensures var closed := Step(r, CleanupCalled).reader;
      && Step(closed, StepFailed(failure)).reader.state == Error
      && ErrorsReported(Step(closed, StepFailed(failure)).effects) == [failure]
      && (r.probesPending ==> Step(closed, ProbesDone(codecs)).reader.state == Running)
  {
    FailureClassification(Step(r, CleanupCalled).reader, failure);
  }

  // ---------------------------------------------------------------------
  // Messages
  // ---------------------------------------------------------------------

  /** A rejected offer is reported as the `Error` text of its status, with
      the retry suffix while running: `stream not found` for 404, the
      server's own words for 400, and the bare name `Error` when a 400 body
      has no `error` field. */
  lemma OfferRejectionReported(r: Reader, location: string, m: string)
    requires r.state == Running && m != ""
    ensures ErrorsReported(Step(r, OfferResponse(404, None, location)).effects)
      == ["Error: " + StreamNotFound + RetrySuffix]
    ensures ErrorsReported(Step(r, OfferResponse(400, Some(m), location)).effects)
      == ["Error: " + m + RetrySuffix]
    ensures ErrorsReported(Step(r, OfferResponse(400, None, location)).effects)
      == ["Error" + RetrySuffix]
  {
    assert OfferResponseError(404, None) == Some(StreamNotFound);
    assert Step(r, OfferResponse(404, None, location)) == HandleError(r, ErrorString(StreamNotFound));
    FailureClassification(r, ErrorString(StreamNotFound));
    assert Step(r, OfferResponse(400, Some(m), location)) == HandleError(r, ErrorString(m));
    FailureClassification(r, ErrorString(m));
    assert Step(r, OfferResponse(400, None, location)) == HandleError(r, ErrorString(""));
    FailureClassification(r, ErrorString(""));
  }
}
