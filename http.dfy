/** The one rule the tool applies to every Bitbucket response it reads: a
    status above 399 is an error whose message carries the status and body. */
module Http {
  import opened Wrappers
  import Text

  /** What an HTTP round trip produced: a transport failure (request could
      not be sent or its body not read), or a status with a body. */
  datatype Reply = TransportError(err: string) | Response(status: int, body: string)

  /** The `resp.StatusCode > 399` test and its "error %d: %s" message. */
  function CheckStatus(status: int, body: string): (r: Result<string, string>)
    ensures r.Err? <==> status > 399
    ensures r.Ok? ==> r.value == body
    ensures r.Err? ==> r.error == "error " + Text.FormatInt(status) + ": " + body
  {
    if status > 399 then Err("error " + Text.FormatInt(status) + ": " + body) else Ok(body)
  }

  /** apiGET: the body of a successful reply, or the error. */
  function ApiGet(reply: Reply): (r: Result<string, string>)
    ensures reply.TransportError? ==> r == Err(reply.err)
    ensures reply.Response? ==> (r.Ok? <==> reply.status <= 399)
    ensures r.Ok? ==> reply.Response? && r.value == reply.body
  {
    match reply
    case TransportError(e) => Err(e)
    case Response(status, body) => CheckStatus(status, body)
  }

  /** The status of a reply is recovered from the error message it produces:
      the message is "error ", then a numeral that reads back as the status. */
  lemma ErrorNamesStatus(status: int, body: string)
    requires status > 399
    ensures var e := CheckStatus(status, body).error;
      var digits := Text.FormatInt(status);
      e == "error " + digits + ": " + body &&
      Text.IsNumeral(digits) && Text.ParseNat(digits) == status
  {
    Text.FormatIntRoundTrip(status);
  }
}
