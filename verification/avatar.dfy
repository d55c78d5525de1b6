/**
 `download_libravatar`: the avatar request derived from an email address, and
 the status gate on the answer.

 Two things the function relies on are outside the model and enter as
 parameters: the MD5 hex digest of the UTF-8 encoded address (`md5Hex`), and
 the HTTPS exchange with the Libravatar server (`exchange`), which maps the
 request sent to the answer received.
 */
module Avatar {
  import opened Common
  import opened Text
  import opened Email

  const Host := "seccdn.libravatar.org"
  const AvatarPrefix := "/avatar/"
  const SizeQuery := "?s=512"
  const StatusOk := 200

  /** An HTTP request as `http.client` sends it: method, host and path. */
  datatype Request = Request(verb: string, host: string, path: string)

  /** An HTTP answer: the status code and the body `response.read()` returns. */
  datatype Response = Response(status: int, body: seq<byte>)

  /** The request path for the digest `hash`: the avatar at 512 pixels. */
  function RequestPath(hash: string): string
  {
    AvatarPrefix + hash + SizeQuery
  }

  /** The inverse of `RequestPath`: the digest named by an avatar path, if `path`
      has that shape. */
  function ParseRequestPath(path: string): (r: Option<string>)
    ensures r.Some? ==> StartsWith(path, AvatarPrefix)
    ensures r.Some? ==> |r.value| + |AvatarPrefix| + |SizeQuery| == |path|
  {
    if |path| >= |AvatarPrefix| + |SizeQuery|
       && path[..|AvatarPrefix|] == AvatarPrefix
       && path[|path| - |SizeQuery|..] == SizeQuery
    then Some(path[|AvatarPrefix|..|path| - |SizeQuery|])
    else None
  }

  /** `ParseRequestPath` recovers exactly the digests `RequestPath` encodes. */
  lemma {:induction false} ParseRequestPathRoundTrip(path: string, hash: string)
    ensures ParseRequestPath(path) == Some(hash) <==> path == RequestPath(hash)
  {
    var p := RequestPath(hash);
    assert p[..|AvatarPrefix|] == AvatarPrefix;
    assert p[|p| - |SizeQuery|..] == SizeQuery;
    assert p[|AvatarPrefix|..|p| - |SizeQuery|] == hash;
    if ParseRequestPath(path) == Some(hash) {
      assert path == path[..|AvatarPrefix|] + path[|AvatarPrefix|..|path| - |SizeQuery|] + path[|path| - |SizeQuery|..];
    }
  }

  /** Distinct digests are asked for on distinct paths. */
  lemma {:induction false} RequestPathInjective(h1: string, h2: string)
    requires RequestPath(h1) == RequestPath(h2)
    ensures h1 == h2
  {
    ParseRequestPathRoundTrip(RequestPath(h1), h1);
    ParseRequestPathRoundTrip(RequestPath(h1), h2);
  }

  /** The request sent for `email`: a GET on the Libravatar host for the digest
      of the normalised address. */
  function AvatarRequest(email: string, md5Hex: string -> string): (r: Request)
    ensures r.verb == "GET" && r.host == Host
    ensures ParseRequestPath(r.path) == Some(md5Hex(Normalise(email)))
  {
    var r := Request("GET", Host, RequestPath(md5Hex(Normalise(email))));
    ParseRequestPathRoundTrip(r.path, md5Hex(Normalise(email)));
    r
  }

  /** The status gate on the answer: its body on a 200 answer; on any other status
      the bare `raise` escapes as an error that does not carry the status. */
  function Gate(answer: Response): (r: Result<seq<byte>, Error>)
    ensures r.Ok? <==> answer.status == StatusOk
    ensures r.Ok? ==> r.value == answer.body
    ensures r.Err? ==> r.error == ReraiseWithoutActiveException
  {
    if answer.status == StatusOk then Ok(answer.body) else Err(ReraiseWithoutActiveException)
  }

  /** `download_libravatar(email)`: the answer to the avatar request, through the
      status gate. */
  function Download(email: string, md5Hex: string -> string, exchange: Request -> Response): (r: Result<seq<byte>, Error>)
    ensures var answer := exchange(AvatarRequest(email, md5Hex));
      && (r.Ok? <==> answer.status == StatusOk)
      && (r.Ok? ==> r.value == answer.body)
      && (r.Err? ==> r.error == ReraiseWithoutActiveException)
  {
    Gate(exchange(AvatarRequest(email, md5Hex)))
  }

  /** Addresses that differ only in letter case and surrounding whitespace send the
      same request and so get the same download outcome. */
  lemma {:induction false} DownloadIgnoresCaseAndPadding(pre: string, a: string, b: string, post: string,
                                      md5Hex: string -> string, exchange: Request -> Response)
    requires forall i | 0 <= i < |pre| :: IsSpace(pre[i])
    requires forall i | 0 <= i < |post| :: IsSpace(post[i])
    requires Lower(a) == Lower(b)
    ensures AvatarRequest(pre + a + post, md5Hex) == AvatarRequest(b, md5Hex)
    ensures Download(pre + a + post, md5Hex, exchange) == Download(b, md5Hex, exchange)
  {
    NormaliseIgnoresCaseAndPadding(pre, a, b, post);
  }

  /** Requesting again with the normalised address changes nothing. */
  lemma {:induction false} RequestOfNormalised(email: string, md5Hex: string -> string)
    ensures AvatarRequest(Normalise(email), md5Hex) == AvatarRequest(email, md5Hex)
  {
    NormaliseIdempotent(email);
  }
}
