/**
 * The contract of the WCIF download: the public WCIF address of a
 * competition, and what a reply turns into. The HTTP request itself and the
 * JSON decoding are not modelled: the reply, with its already decoded
 * document, is a parameter.
 */
module Fetch {
  import opened Wrappers
  import opened Decimal

  const ApiPrefix: string := "https://worldcubeassociation.org/api/v0/competitions/"
  const WcifSuffix: string := "/wcif/public"
  const FailurePrefix: string := "Failed to fetch WCIF for competition ID "

  /** An HTTP reply: its status code, its body text, and the document its body decodes to. */
  datatype Reply<D> = Reply(status: int, text: string, document: D)

  /** The raised exception: the competition id, the status code and the body text. */
  datatype FetchFailure = FetchFailure(competitionId: string, status: int, text: string)

  /** The public WCIF address of competition `competitionId`. */
  function WcifUrl(competitionId: string): (url: string)
    ensures |url| == |ApiPrefix| + |competitionId| + |WcifSuffix|
    ensures url[..|ApiPrefix|] == ApiPrefix && url[|url| - |WcifSuffix|..] == WcifSuffix
  {
    ApiPrefix + competitionId + WcifSuffix
  }

  /** The competition id an address of that shape names, if it has that shape. */
  function CompetitionIdOf(url: string): Option<string> {
    if |url| >= |ApiPrefix| + |WcifSuffix| && url[..|ApiPrefix|] == ApiPrefix && url[|url| - |WcifSuffix|..] == WcifSuffix
    then Some(url[|ApiPrefix|..|url| - |WcifSuffix|])
    else None
  }

  /** The address names the competition it was made for, so different ids give different addresses. */
  lemma UrlRoundTrip(competitionId: string)
    ensures CompetitionIdOf(WcifUrl(competitionId)) == Some(competitionId)
  {
    var url := WcifUrl(competitionId);
    assert url[|ApiPrefix|..|url| - |WcifSuffix|] == competitionId;
  }

  /** A reply with status 200 yields its document; any other status is a failure carrying status and body. */
  function Receive<D>(competitionId: string, reply: Reply<D>): (r: Result<D, FetchFailure>)
    ensures r.Success? <==> reply.status == 200
    ensures r.Success? ==> r.value == reply.document
    ensures r.Failure? ==> r.error == FetchFailure(competitionId, reply.status, reply.text)
  {
    if reply.status == 200 then Success(reply.document)
    else Failure(FetchFailure(competitionId, reply.status, reply.text))
  }

  /** The exception text: the id, then the status code and the body text separated by a space. */
  function Message(f: FetchFailure): (m: string)
    ensures |m| >= |FailurePrefix| + |f.competitionId| + 2 + 2 + |f.text|
    ensures m[..|FailurePrefix|] == FailurePrefix
    ensures m[|FailurePrefix|..|FailurePrefix| + |f.competitionId| + 2] == f.competitionId + ": "
    ensures m[|m| - |f.text|..] == f.text
  {
    FailurePrefix + f.competitionId + ": " + IntText(f.status) + " " + f.text
  }

  /** The status code can be read back from the exception text when the id and the body are known. */
  lemma MessageStatus(f: FetchFailure)
    ensures var m := Message(f);
            var start := |FailurePrefix| + |f.competitionId| + 2;
            start <= |m| - |f.text| - 1 &&
            ParseInt(m[start..|m| - |f.text| - 1]) == Some(f.status)
  {
    var m := Message(f);
    var start := |FailurePrefix| + |f.competitionId| + 2;
    assert m[start..|m| - |f.text| - 1] == IntText(f.status);
    IntTextRoundTrip(f.status);
  }
}
