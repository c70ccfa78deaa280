# PromiseQ WebRTC reader, modelled in Dafny

This project models the WebRTC reader of the PromiseQ player library. The
reader plays a stream from a WHEP-style media server and works in five steps:

1. It probes which codecs the browser can decode but does not advertise.
2. It asks the server for ICE servers with an `OPTIONS` request and reads
   them from the `Link` header.
3. It creates a receive-only peer connection and rewrites the audio section
   of the local SDP offer to add those codecs.
4. It `POST`s the offer and applies the answer.
5. It trickles its local ICE candidates to the session resource as SDP
   fragments in `PATCH` requests.

On failure it retries after a pause. It tells its consumer about errors,
about tracks, and, once, that the stream is ready.

The model has two layers.

**Pure layer.** The string-level helpers of the source each become a total
function over `string` values, with `Result` for the exceptions they throw:

- `IceServers`: `linkToIceServers` and `unquoteCredential`.
- `OfferParser`: `parseOffer`.
- `PayloadTypes`: `findFreePayloadType`.
- `CodecRewriters`: `enableStereoPcmau`, `enableMultichannelOpus` and
  `enableL16`. They share one table-driven step.
- `StereoOpus`: `enableStereoOpus`.
- `OfferEditor`: `editOffer`.
- `TrickleFragment`: `generateSdpFragment`.
- `HttpStatus`: the two response-status switches.
- `Auth`: `processJwtAuth` and `getAuthHeaders`.
- `Strings` holds JavaScript's `split`, `join`, `includes`, `startsWith` and
  `indexOf`.

**Reader layer.** The `PromiseQWebRTCReader` class becomes a state machine
(`Reader`):

- Every browser callback and every settled promise is an `Event`.
- `Step` returns the reader's next fields and the ordered list of outward
  `Effect`s: requests, peer-connection calls, timer calls and consumer
  notifications.
- `Run` folds `Step` over a sequence of events.
- Module `ReaderProperties` states what the class keeps invariant and what
  it does in the scenarios its design describes.

Some behaviours of the code differ from what its design suggests. The model
follows the code; where a lemma pins a behaviour down, it is named in parentheses:

- `cleanup` sets the state to closed, but closed is not terminal. A later
  failure moves the reader to the error state. A probe result that arrives
  after `cleanup` still starts a new attempt (`ClosedIsNotFinal`).
- A failure does not clear the session URL. After a restart, candidates that
  appear before the new offer is accepted are sent straight to the previous
  session instead of being queued (`StaleSessionAfterRestart`).
- `setupPeerConnection` does not check the state. It replaces any peer
  connection it holds without closing it.
- The readiness check runs in every state.
- A missing `Link` header yields no ICE servers. An empty one fails the
  attempt, because its single entry cannot match (`MissingAndEmptyHeader`).
- An empty `jwt` query parameter is not a token. The configured URL is kept
  with the empty parameter still in it (`EmptyJwtParamKept`).
- The stereo test is `includes("stereo")`, which `sprop-stereo` alone
  satisfies. So a line that has only `sprop-stereo` never gains `stereo=1`
  (`SpropStereoSuppressesStereo`).
- A connection-state change that arrives while no peer connection is held
  changes nothing. In the source, `pc!.connectionState` would throw there,
  inside an event handler whose exception nobody catches.
- `findFreePayloadType` reads the formats from the fourth token of the media
  line on. A media line of only two tokens (`m=audio 9`) lists no formats even
  after the first codec has appended its value as the third token, so the
  second codec gets the same payload type and the line ends in `96 96`
  (`ShortMediaLineRepeats`, `ShortAudioLineExample`). The shape lemmas of the
  codec rewriters therefore assume a media line of at least three tokens
  (`MediaLines`).

## Model

| member | source | states |
|---|---|---|
| Strings.JoinSplit | src/lib/promiseq-webrtc.ts:222-244 | joining the parts of any split with the same separator gives back the original text |
| Strings.SplitJoin | src/lib/promiseq-webrtc.ts:114-128 | splitting a join recovers the parts, when no part contains the separator and the separator has no border (CRLF, `m=` and `, ` qualify) |
| Strings.IndexOf | src/lib/promiseq-webrtc.ts:91 | the result is the first occurrence of the separator, where `split` cuts, and none exactly when the text does not include it |
| Strings.NatToStringInjective | src/lib/promiseq-webrtc.ts:107 | distinct payload type numbers have distinct decimal renderings, so the `includes(i.toString())` test is a test on numbers |
| Auth.ProcessJwtAuth | src/lib/promiseq-webrtc.ts:337-351 | a token is never empty; without one the configured URL is kept unchanged; with one, the clean URL has the same base and its query is the configured one with every `jwt` pair deleted and the other pairs kept in order |
| Auth.TokenSource | src/lib/promiseq-webrtc.ts:339 | the configured token wins when non-empty; otherwise the token is the first `jwt` parameter if it is non-empty, else there is none |
| Auth.DeleteParamConcat | src/lib/promiseq-webrtc.ts:341 | deleting the `jwt` parameters from two parts of the query is deleting them from each part, so the remaining parameters keep their order |
| Auth.DeleteKeepsOthers | src/lib/promiseq-webrtc.ts:341 | deleting the `jwt` parameters leaves the value of every other parameter as it was |
| Auth.TokenConsumed | src/lib/promiseq-webrtc.ts:341-346 | once a token was found, the clean URL holds no token: processing it again with no configured token finds none and keeps it as it is |
| Auth.EmptyJwtParamKept | src/lib/promiseq-webrtc.ts:343-350 | an empty `jwt` parameter with no configured token yields no token and keeps the configured URL, empty parameter included |
| Auth.AuthHeaders | src/lib/promiseq-webrtc.ts:353-359 | there is at most one header; it is present exactly when a non-empty token is held, and it reads `Authorization: Bearer <token>` |
| HttpStatus.OfferResponseError | src/lib/promiseq-webrtc.ts:533-548 | the offer response is accepted exactly when the status is 201 |
| HttpStatus.CandidateResponseError | src/lib/promiseq-webrtc.ts:601-612 | a candidate response is accepted exactly when the status is 204 |
| HttpStatus.ResponsesAgree | src/lib/promiseq-webrtc.ts:601-612 | apart from 201, 204 and 400, both switches fail a status with the same message: the 401, 403 and 404 texts, else `bad status code <n>` |
| HttpStatus.SuccessCodesDiffer | src/lib/promiseq-webrtc.ts:533-548 | each request's success code is a `bad status code` failure for the other request |
| HttpStatus.BadStatusCodeInjective | src/lib/promiseq-webrtc.ts:547 | the `bad status code` message determines the status that caused it |
| HttpStatus.ErrorStringRoundTrip | src/lib/promiseq-webrtc.ts:414 | an error's string form begins with `Error` and its message can be read back from it |
| PayloadTypes.FindFreePayloadType | src/lib/promiseq-webrtc.ts:104-112 | the result is the least number in 96..127 missing from the media line's format list; the call fails exactly when all 32 numbers are listed |
| PayloadTypes.FirstFreeFrom | src/lib/promiseq-webrtc.ts:106-111 | scanning from `i` finds a number not listed with every number before it listed, or fails with the "unable to find" message exactly when the rest of the range is listed |
| PayloadTypes.Allocate | src/lib/promiseq-webrtc.ts:117-125 | reference for k successive allocations: k increasing dynamic payload types, none originally listed, each the least one not listed and not already taken |
| PayloadTypes.AllocateFails | src/lib/promiseq-webrtc.ts:103-125 | k successive allocations fail, with the "unable to find" message, exactly when fewer than k values in 96..127 are free |
| CodecRewriters.InsertAllShape | src/lib/promiseq-webrtc.ts:119-120 | successive splices before the last line keep the inserted lines in order, all placed just before the original last line |
| CodecRewriters.AddEntryShape | src/lib/promiseq-webrtc.ts:117-120 | one codec step succeeds exactly when a free payload type exists; it appends that type to line 0 and inserts the codec's lines before the last line |
| CodecRewriters.ShortMediaLineStep | src/lib/promiseq-webrtc.ts:103-111 | a media line of at most three tokens lists no formats, so a codec step always takes payload type 96 |
| CodecRewriters.ShortMediaLineRepeats | src/lib/promiseq-webrtc.ts:113-125 | on a media line of two tokens, two codec steps both succeed and append the same payload type 96 twice |
| CodecRewriters.ShortAudioLineExample | src/lib/promiseq-webrtc.ts:113-127 | the stereo PCMU/PCMA rewrite turns the media line `m=audio 9` into `m=audio 9 96 96` |
| CodecRewriters.AddEntriesShape | src/lib/promiseq-webrtc.ts:114-128 | repeated steps succeed exactly when the reference allocation succeeds, and then use exactly its payload types, in order |
| CodecRewriters.AddEntriesError | src/lib/promiseq-webrtc.ts:111 | the only failure of a run of steps is running out of payload types |
| CodecRewriters.AddCodecsError | src/lib/promiseq-webrtc.ts:111 | a rewriter's only failure is running out of payload types |
| CodecRewriters.AddCodecsShape | src/lib/promiseq-webrtc.ts:114-128 | a section rewrite succeeds exactly when the allocation does; the result's lines are the section's lines with the allocated types appended to the format list and the codecs' lines inserted |
| CodecRewriters.AddCodecsConcat | src/lib/promiseq-webrtc.ts:229-237 | rewriting with two codec lists in one go equals rewriting with the first and then the second, and a failure of the first stops it |
| CodecRewriters.AddCodecsLineCount | src/lib/promiseq-webrtc.ts:130-170 | a successful rewrite adds exactly as many lines as the codecs' attribute lines |
| CodecRewriters.AppendToken | src/lib/promiseq-webrtc.ts:118 | appending ` <pt>` to the media line adds exactly that one entry to its format list |
| CodecRewriters.RewrittenFree | src/lib/promiseq-webrtc.ts:119-125 | the rewritten lines still contain no CRLF, so they survive the join and the next split |
| CodecRewriters.EnableStereoPcmauShape | src/lib/promiseq-webrtc.ts:114-128 | PCMU then PCMA get the two least free types u < a; the media line gains ` u a` and four lines (rtpmap and transport-cc for each) are inserted before the last line |
| CodecRewriters.EnableMultichannelOpusShape | src/lib/promiseq-webrtc.ts:130-170 | the six multiopus layouts get the six least free types; 18 lines are inserted and the format list gains those types in order |
| CodecRewriters.EnableL16Shape | src/lib/promiseq-webrtc.ts:172-191 | L16 at 8000, 16000 and 48000 Hz get the three least free types p < q < r; the media line gains ` p q r` and six lines are inserted before the last line |
| StereoOpus.FirstOpusFrom | src/lib/promiseq-webrtc.ts:197-202 | the result is the first rtpmap line whose lower-cased text includes `opus/`, and none exactly when no such line exists |
| StereoOpus.StereoLine | src/lib/promiseq-webrtc.ts:209-216 | the rewritten fmtp line extends the original and then mentions both `stereo` and `sprop-stereo` |
| StereoOpus.StereoLineCases | src/lib/promiseq-webrtc.ts:209-216 | a line without `stereo` gains `;stereo=1;sprop-stereo=1`, a line with `stereo` but not `sprop-stereo` gains only `;sprop-stereo=1`, and a line with `sprop-stereo` is kept as it is |
| StereoOpus.StereoLineFixed | src/lib/promiseq-webrtc.ts:210-215 | a line is left unchanged exactly when it already mentions both parameters |
| StereoOpus.StereoLineIdempotent | src/lib/promiseq-webrtc.ts:209-216 | rewriting a rewritten fmtp line changes nothing |
| StereoOpus.SpropStereoSuppressesStereo | src/lib/promiseq-webrtc.ts:210-211 | a line that mentions only `sprop-stereo` is left unchanged and never gets `;stereo=1` |
| StereoOpus.EnableStereoOpusShape | src/lib/promiseq-webrtc.ts:193-220 | without an Opus rtpmap the section is returned unchanged; otherwise each fmtp line of the Opus payload type becomes its stereo rewrite, which extends it and carries both parameters, and every other line and the line count are kept |
| StereoOpus.StereoLinesKeepFormat | src/lib/promiseq-webrtc.ts:197-202 | the rewrite does not change which payload type is the Opus one |
| StereoOpus.EnableStereoOpusIdempotent | src/lib/promiseq-webrtc.ts:193-220 | applying the Opus rewrite twice is the same as applying it once |
| OfferEditor.FirstAudioFrom | src/lib/promiseq-webrtc.ts:225-226 | the result is the first `m=` section starting with `audio`, and none exactly when there is none |
| OfferEditor.EditOfferError | src/lib/promiseq-webrtc.ts:229-237 | editing fails only by running out of payload types |
| OfferEditor.EditOfferNoAudio | src/lib/promiseq-webrtc.ts:222-244 | an offer without an audio section comes back unchanged |
| OfferEditor.EditOfferSplice | src/lib/promiseq-webrtc.ts:222-244 | only the first audio section changes: the offer is the text before it, then the section, then the text after it, and the edit puts the edited section in that place; it succeeds exactly when the section edit does |
| OfferEditor.EditAudioSectionAsOne | src/lib/promiseq-webrtc.ts:227-237 | the chain of rewrites for the detected codecs equals one rewrite with the concatenated codec list, in source order, after the Opus rewrite |
| OfferEditor.EditAudioSectionShape | src/lib/promiseq-webrtc.ts:227-237 | the audio edit succeeds exactly when the reference allocation succeeds for the detected codecs (2, 6, 3 types), that is, when that many payload types are free; the section then grows by 4, 18 and 6 lines and its format list gains the allocated types |
| OfferEditor.RequestedSize | src/lib/promiseq-webrtc.ts:229-237 | the codecs detected need 2, 6 and 3 payload types and 4, 18 and 6 lines |
| OfferParser.ParseLinesSpec | src/lib/promiseq-webrtc.ts:91-99 | the parse loop keeps a field once it is non-empty; otherwise it takes the first non-empty value of its prefix, and it collects every media line in order |
| OfferParser.ParseOfferFields | src/lib/promiseq-webrtc.ts:84-102 | the offer data are the first ufrag, the first password and all `m=` descriptions of the CRLF-separated lines |
| OfferParser.ParseOfferLines | src/lib/promiseq-webrtc.ts:84-102 | writing offer data as SDP lines and parsing them gives the same data back |
| OfferParser.PrefixesDisjoint | src/lib/promiseq-webrtc.ts:92-97 | a line can match at most one of the three prefixes, so the order of the tests does not matter |
| TrickleFragment.CandidatesFor | src/lib/promiseq-webrtc.ts:247-254 | a media index's group holds exactly the input candidates of that index |
| TrickleFragment.CandidatesForConcat | src/lib/promiseq-webrtc.ts:247-254 | the group of a later batch of candidates follows the group of an earlier one, so each group keeps arrival order |
| TrickleFragment.BlocksFacts | src/lib/promiseq-webrtc.ts:258-269 | every block belongs to a media line whose group is not empty, and every media line whose group is not empty gets a block; each block is labelled with its media line and index and carries that group, and blocks follow media order |
| TrickleFragment.BlocksComplete | src/lib/promiseq-webrtc.ts:258-269 | a media line with at least one candidate of its index gets a block |
| TrickleFragment.FragmentCarriesEachCandidateOnce | src/lib/promiseq-webrtc.ts:246-272 | the candidates written are, as a multiset, exactly the input candidates whose index names a media line |
| TrickleFragment.FragmentIgnoresStrayCandidates | src/lib/promiseq-webrtc.ts:247-261 | candidates without an index, or whose index names no media line, do not change the fragment |
| TrickleFragment.BlocksDependOnGroups | src/lib/promiseq-webrtc.ts:247-254 | the fragment depends on the candidates only through the group of each media index |
| TrickleFragment.FragmentHeader | src/lib/promiseq-webrtc.ts:256 | every fragment starts with the ufrag and password lines of the offer |
| TrickleFragment.FragmentLinesSplit | src/lib/promiseq-webrtc.ts:256-271 | when no field contains a line feed, the fragment is its lines, each terminated by CRLF |
| TrickleFragment.SingleCandidateFragment | src/lib/promiseq-webrtc.ts:246-272 | a single candidate gives the header and, when its index names a media line, that media line, its `a=mid` and the candidate, else the header alone |
| TrickleFragment.TwoMediaFragment | src/lib/promiseq-webrtc.ts:258-269 | with two media lines and one candidate for each, the fragment holds two blocks in media order, each with its own `a=mid` |
| IceServers.LazyEnd | src/lib/promiseq-webrtc.ts:63 | the lazy capture ends at the first place the following literal matches, ignoring case, and does not cross a line terminator |
| IceServers.MatchLink | src/lib/promiseq-webrtc.ts:63 | a match begins with `<`, captures a non-empty URL free of line terminators, and is followed by the `rel="ice-server"` literal; there is no match exactly when the entry does not start with `<` or no `>; rel="ice-server"` (ASCII case ignored) follows it before a line terminator |
| IceServers.LinkToIceServer | src/lib/promiseq-webrtc.ts:62-75 | a converted entry has exactly one URL, and the entry begins with `<` followed by that URL; an entry that does not match fails with the null-dereference TypeError |
| IceServers.ConvertLinks | src/lib/promiseq-webrtc.ts:62-75 | success converts every entry in order; a failure is the failure of the first entry that fails, every earlier entry converting |
| IceServers.MissingAndEmptyHeader | src/lib/promiseq-webrtc.ts:60-76 | a missing header gives no servers, and an empty header fails as a non-matching entry |
| IceServers.LinkHeaderRoundTrip | src/lib/promiseq-webrtc.ts:60-76 | writing any non-empty list of servers as a `Link` header (URLs without `>` or `,`, credentials JSON-quoted) and parsing it gives the same servers back |
| IceServers.LinkToIceServerOf | src/lib/promiseq-webrtc.ts:62-75 | one written entry parses back to its server, credentials included |
| IceServers.CredentialsGroupOf | src/lib/promiseq-webrtc.ts:63 | the optional credentials group captures the quoted username and credential |
| IceServers.LazyUrlCut | src/lib/promiseq-webrtc.ts:63 | the lazy URL capture stops at the first `>; rel="ice-server"`, whatever follows it |
| IceServers.UnquoteJsonQuote | src/lib/promiseq-webrtc.ts:51 | unquoting the JSON string body of any text gives back that text |
| IceServers.UnquotePlain | src/lib/promiseq-webrtc.ts:51 | text without backslashes unquotes to itself exactly when it has no quote and no control character, and fails otherwise |
| IceServers.HexRoundTrip | src/lib/promiseq-webrtc.ts:51 | a four-digit `\u` escape decodes to the code unit it was written for |
| ReaderProperties.ConstructValid | src/lib/promiseq-webrtc.ts:305-335 | a new reader is initializing, waits for its probes, holds the processed token and URL, and satisfies the reader invariant |
| ReaderProperties.FailureClassification | src/lib/promiseq-webrtc.ts:361-394 | a failure is ignored while restarting or in error; while running it schedules exactly one restart and reports the message with the retry suffix; otherwise it moves to error and reports the bare message; in both cases it drops the connection, offer data, queue and readiness, and it keeps the session URL |
| ReaderProperties.FailureAbsorbed | src/lib/promiseq-webrtc.ts:362-364 | a second failure right after a first changes nothing and reports nothing |
| ReaderProperties.HandleErrorEffects | src/lib/promiseq-webrtc.ts:361-394 | handling a failure never cancels a timer and never sends a request, and a restart is scheduled only from the running state |
| ReaderProperties.CheckReadyEffects | src/lib/promiseq-webrtc.ts:457-500 | the readiness check only reports readiness and changes no field but the ready flag |
| ReaderProperties.StepValid | src/lib/promiseq-webrtc.ts:376-382 | every event keeps the invariant: a restart timer is pending exactly while restarting, no attempt runs before the probes settle, and a ready stream has a track and a connection |
| ReaderProperties.RunValid | src/lib/promiseq-webrtc.ts:376-382 | the invariant holds after any sequence of events |
| ReaderProperties.SingleTimer | src/lib/promiseq-webrtc.ts:379-382 | a restart is scheduled only when none is pending, and it leaves the reader restarting with one pending; a timer is cancelled only by cleanup of a pending one |
| ReaderProperties.RequestsAuthed | src/lib/promiseq-webrtc.ts:523-526 | the OPTIONS, POST and PATCH requests all end with the reader's authorization headers |
| ReaderProperties.RequestsCarryAuth | src/lib/promiseq-webrtc.ts:588-594 | no event changes the reader's credentials, and every request any event sends carries them |
| ReaderProperties.StepReadyBudget | src/lib/promiseq-webrtc.ts:470-472 | outside a new attempt or a new connection, readiness is reported at most once per connection |
| ReaderProperties.ReadyAtMostOnce | src/lib/promiseq-webrtc.ts:457-500 | over any run of events that holds no probe result, restart timer or ICE-server response, readiness is reported at most once |
| ReaderProperties.TrackReadiness | src/lib/promiseq-webrtc.ts:457-520 | a track is counted and reported first; readiness is then announced once, with the new count, exactly when the stream was not ready, a connection is held and the connection is connected or ICE is connected or completed |
| ReaderProperties.ConnectionStateReadiness | src/lib/promiseq-webrtc.ts:438-441 | without a connection nothing happens; a failed or closed connection while running is a failure that announces nothing; otherwise readiness is announced once, with the current count, exactly when the stream was not ready, a track was counted and the connection is connected or ICE is connected or completed |
| ReaderProperties.ConnectionFailsQuietly | src/lib/promiseq-webrtc.ts:619-631 | while running, a failed or closed connection reports `peer connection closed` with the retry suffix, restarts, drops the connection and announces no readiness |
| ReaderProperties.ConnectionCheckedForReadiness | src/lib/promiseq-webrtc.ts:457-472 | when the connection is not failing, the handler is the readiness check alone, which fires exactly when the stream was not ready, a track was counted and the connection or ICE is up |
| ReaderProperties.ReadinessScenario | src/lib/promiseq-webrtc.ts:502-520 | a track while connecting, then the connection becoming connected, then a second track report two tracks and readiness exactly once, with a count of one |
| ReaderProperties.CandidatesQueued | src/lib/promiseq-webrtc.ts:580-581 | while running and before the offer is accepted, local candidates are queued in order and nothing is sent |
| ReaderProperties.QueueThenFlush | src/lib/promiseq-webrtc.ts:556-572 | candidates queued before the answer are sent once, together, in one PATCH to the new session after the answer is applied, and the queue is emptied |
| ReaderProperties.CandidateSentAlone | src/lib/promiseq-webrtc.ts:579-584 | once a session exists, each new candidate is sent alone in its own PATCH to that session |
| ReaderProperties.NothingToSend | src/lib/promiseq-webrtc.ts:556-586 | in every state the end-of-candidates event is ignored, and an applied answer sends nothing when the queue is empty |
| ReaderProperties.GuardsWhenNotRunning | src/lib/promiseq-webrtc.ts:556-586 | outside the running state an answer and a local candidate are ignored |
| ReaderProperties.StaleSessionAfterRestart | src/lib/promiseq-webrtc.ts:361-394 | after a failure and a restart, a candidate of the new attempt is sent straight to the previous session, because the failure kept its URL |
| ReaderProperties.RestartStartsAttempt | src/lib/promiseq-webrtc.ts:379-422 | a pending restart timer starts a new attempt: running, no track, not ready, and one `OPTIONS` request to the stream endpoint with the credentials and no body; a timer no longer pending does nothing |
| ReaderProperties.ProbesStartAttempt | src/lib/promiseq-webrtc.ts:396-422 | settled probes record the supported codecs and start the first attempt with the same `OPTIONS` request; probes settling again do nothing |
| ReaderProperties.NegotiationScenario | src/lib/promiseq-webrtc.ts:409-453 | after a good `Link` header, or none, and an offer that edits cleanly: one connection with those ICE servers, the edited offer set as local description and its offer data recorded, then that same text posted as `application/sdp` with the credentials, in that order |
| ReaderProperties.OfferPosted | src/lib/promiseq-webrtc.ts:522-531 | the text posted to the stream endpoint is the edited offer that was set as local description |
| ReaderProperties.SetupFailuresRouted | src/lib/promiseq-webrtc.ts:409-422 | a bad `Link` header, and any rejected promise of the chain, reach the error handler with their own message |
| ReaderProperties.OfferFailuresRouted | src/lib/promiseq-webrtc.ts:449-453 | an offer-editing error reaches the error handler as its string form; with the connection gone, the null dereference is reported after the offer data was recorded |
| ReaderProperties.OfferRejectedRouted | src/lib/promiseq-webrtc.ts:533-548 | every status but 201 of the offer request reaches the error handler as the string form of its status text |
| ReaderProperties.CandidatesRejectedRouted | src/lib/promiseq-webrtc.ts:600-616 | every status but 204 of a candidate request reaches the error handler as the string form of its status text |
| ReaderProperties.AnswerFailuresRouted | src/lib/promiseq-webrtc.ts:556-571 | an answer while running without a connection, and a flush of queued candidates without offer data, reach the error handler with the text of the null dereference |
| ReaderProperties.CleanupClears | src/lib/promiseq-webrtc.ts:633-652 | cleanup closes the reader and clears its session, offer, queue and readiness; it keeps the codec list, the probe flag and the credentials, so a later start is set up as before; it cancels the timer exactly when one was pending and closes the connection exactly when one was held; cleaning up twice does nothing more |
| ReaderProperties.ClosedIsNotFinal | src/lib/promiseq-webrtc.ts:361-394 | after cleanup a failure still moves the reader to error and reports it, and late probe results still start an attempt |
| ReaderProperties.OfferRejectionReported | src/lib/promiseq-webrtc.ts:533-548 | a rejected offer is reported with its `Error:` text and the retry suffix; a 400 without an `error` field is reported as a bare `Error` |

## Left out

- Codec probing (`supportsNonAdvertisedCodec`, source lines 9-49): it builds a throw-away peer connection and inspects its SDP. Its result enters the model as the codec list carried by the `ProbesDone` event.
- Browser objects: `fetch`, `RTCPeerConnection`, `MediaStream`, the timers and the JSON body reader. They are `Effect`s the reader emits and `Event`s it receives. Their own behaviour is not modelled.
- Transceiver setup and `getReceivers`: these are left out. The payload of the ready notification carries only the track count, not the list of streams.
- URL parsing, resolution and serialisation: a URL is a base plus an ordered list of query pairs. The `Location` header arrives already resolved against the stream URL.
- Logging and the debug switch: left out, because they change no state.
- Exceptions thrown by consumer callbacks: `onReady` and `onTrack` are wrapped in `try`/`catch` and the exception is logged (source lines 488-493 and 507-509). `onError` is not wrapped (lines 384-385 and 390-391), but it is the last statement of `handleError`: its exception escapes only after every field has been updated and, on the restart path, after the timer is scheduled. So no callback exception changes the reader's state.
- IceServers.Unquote: it rejects a `\u` escape that names a UTF-16 surrogate, because a Dafny string cannot hold a lone surrogate. JavaScript accepts it.
- Error texts of the engine: the `TypeError` texts are constants in V8's wording. `IceServers.JsonSyntaxError` is a placeholder: V8's `JSON.parse` message depends on the input and the position of the fault, so the text reported for a malformed credential differs from the browser's.
- A 400 response whose body is not JSON: left out. The model receives the body's `error` field, or its absence.
- `toLowerCase`: only ASCII letters are folded. The `opus/` test still gives the same answer, because no other character lowers to one of the characters of `opus/`.
- ReaderProperties.StepReadyBudget: the bound covers events that start no new attempt and no new connection. The probe result, the restart timer and the ICE server response can each allow one more readiness report, and the lemma says nothing across them.
- ReaderProperties.ReadyAtMostOnce: the run may hold no probe result, restart timer or ICE-server response, because each of them can lead to a new connection. Across such an event, readiness can be reported again, and the lemma says nothing about it.
- The Angular player component and the other files of the repository: they are not part of this model.
- `RetryPause`: the 2000 ms pause is only a constant. Time is not modelled.
