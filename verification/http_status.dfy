/** The status handling of the two requests the reader makes to the
    server: the offer POST (`sendOffer`) and the candidate PATCH
    (`sendLocalCandidates`), and the text that reaches the failure handler
    when one of them rejects. */
module HttpStatus {
  import opened Results
  import opened Strings

  const AuthenticationFailed: string := "authentication failed"
  const AccessDenied: string := "access denied"
  const StreamNotFound: string := "stream not found"

  function BadStatusCode(status: nat): string {
    "bad status code " + NatToString(status)
  }

  /** The failure shared by both requests for a status they do not accept. */
  function CommonError(status: nat): string {
    if status == 401 then AuthenticationFailed
    else if status == 403 then AccessDenied
    else if status == 404 then StreamNotFound
    else BadStatusCode(status)
  }

  /** The offer POST: 201 is success (`None`); 400 fails with the `error`
      field of the JSON body, where a missing field gives the empty
      message of `new Error(undefined)`; other statuses map as
      `CommonError`. */
  function OfferResponseError(status: nat, bodyError: Option<string>): (r: Option<string>)
    ensures r.None? <==> status == 201
  {
    if status == 201 then None
    else if status == 400 then Some(match bodyError case Some(e) => e case None => "")
    else Some(CommonError(status))
  }

  /** The candidate PATCH: 204 is success; every other status maps as
      `CommonError`, 400 included. */
  function CandidateResponseError(status: nat): (r: Option<string>)
    ensures r.None? <==> status == 204
  {
    if status == 204 then None else Some(CommonError(status))
  }

  /** `err.toString()` for an `Error` carrying `message`: the name, then
      ": " and the message unless the message is empty. */
  function ErrorString(message: string): string {
    if message == "" then "Error" else "Error: " + message
  }

  /** Reading the message back out of `ErrorString`. */
  function MessageOf(s: string): string {
    if |s| >= 7 then s[7..] else ""
  }

  lemma ErrorStringRoundTrip(message: string)
    ensures MessageOf(ErrorString(message)) == message
    ensures StartsWith(ErrorString(message), "Error")
  {
    if message != "" {
      assert ("Error: " + message)[7..] == message;
    }
  }

  /** The two requests report the same failure for every status that
      neither treats specially. */
  lemma ResponsesAgree(status: nat, bodyError: Option<string>)
    requires status != 201 && status != 204 && status != 400
    ensures OfferResponseError(status, bodyError) == CandidateResponseError(status)
    ensures CandidateResponseError(status) == Some(CommonError(status))
  {
  }

  /** A status the offer POST accepts is an error for the candidate PATCH
      and the other way round. */
  lemma SuccessCodesDiffer(bodyError: Option<string>)
    ensures CandidateResponseError(201) == Some(BadStatusCode(201))
    ensures OfferResponseError(204, bodyError) == Some(BadStatusCode(204))
  {
  }

  /** Unexpected statuses are told apart by their message. */
  lemma BadStatusCodeInjective(a: nat, b: nat)
    requires BadStatusCode(a) == BadStatusCode(b)
    ensures a == b
  {
    var p := "bad status code ";
    assert NatToString(a) == BadStatusCode(a)[|p|..];
    assert NatToString(b) == BadStatusCode(b)[|p|..];
    NatToStringInjective(a, b);
  }
}
