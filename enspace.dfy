/** The `Enspace` client: picks the API host from the mode, builds each
    request (target, headers, body), turns each response into a result, and
    accepts or rejects the login token. The HTTP exchange itself is a
    function `send` from request to response, and the file system is the set
    of paths that exist. */
module Enspace {
  import opened Wrappers
  import opened Strings
  import opened Endpoint

  /** `EnMode`; `Undefined` is any other integer cast to the enum. */
  datatype Mode = Production | Development | Undefined(raw: int)

  /** The `_baseUrl` switch: a host for each named mode, an error otherwise. */
  function BaseUrl(mode: Mode): (r: Result<string>)
    ensures r.Ok? <==> !mode.Undefined?
    ensures r.Err? ==> r.error == InvalidMode
    ensures r.Ok? ==> |r.value| > 8 && r.value[..8] == "https://" && r.value[|r.value| - 1] != '/'
  {
    match mode
    case Production => Ok("https://api.enspace.io")
    case Development => Ok("https://api.stage.enspace.io")
    case Undefined(_) => Err(InvalidMode)
  }

  /** Production and development reach their own, distinct hosts. */
  lemma BaseUrlHosts()
    ensures BaseUrl(Production) == Ok("https://api.enspace.io")
    ensures BaseUrl(Development) == Ok("https://api.stage.enspace.io")
    ensures BaseUrl(Production) != BaseUrl(Development)
  {
  }

  /** An `Enspace` instance: the base address chosen at construction and the
      credentials it logs in with. None of them changes afterwards. */
  datatype Client = Client(baseUrl: string, username: string, password: string)

  /** `new Enspace(mode, username, password)`: fails exactly when the mode is
      not one of the two named ones; the credentials are not checked. */
  function New(mode: Mode, username: string, password: string): (r: Result<Client>)
    ensures r.Ok? <==> !mode.Undefined?
    ensures r.Err? ==> r.error == InvalidMode
    ensures r.Ok? ==>
      r.value.baseUrl == BaseUrl(mode).value && r.value.username == username && r.value.password == password
  {
    match BaseUrl(mode)
    case Ok(url) => Ok(Client(url, username, password))
    case Err(e) => Err(e)
  }

  /** The value of the fixed `Enl-Token` header. */
  const EnlToken: string := "enspace4c4c"

  datatype Verb = Get | Post

  /** A part of a multipart form: a text field, or a file sent under a name. */
  datatype Part = StringPart(name: string, text: string) | FilePart(name: string, filePath: string)

  datatype Body<B> = NoBody | Json(model: B) | Multipart(parts: seq<Part>)

  /** What the client hands to the HTTP stack: the base address, the target
      resolved against it, the `Authorization: Bearer` and `Enl-Token`
      header values when they are set, the timeout when it is overridden,
      and the body. */
  datatype Request<B> = Request(
    verb: Verb,
    baseAddress: string,
    target: string,
    bearer: Option<string>,
    enlToken: Option<string>,
    timeout: Option<int>,
    body: Body<B>)

  /** What comes back: whether the status is a success, and what reading the
      content as JSON gives (`None` for a JSON `null`). */
  datatype Response<T> = Response(isSuccess: bool, content: Option<T>)

  /** The `Authorization` header of the JSON calls: set to the token unless
      the token is empty or white space. */
  function Bearer(token: string): (h: Option<string>)
    ensures h.Some? <==> !IsBlank(token)
    ensures h.Some? ==> h.value == token
  {
    if IsBlank(token) then None else Some(token)
  }

  /** The result rule of every call: a success gives the parsed content, any
      other status gives the default (absent) value and never an error. */
  function Outcome<T>(response: Response<T>): (r: Option<T>)
    ensures !response.isSuccess ==> r == None
    ensures response.isSuccess ==> r == response.content
  {
    if response.isSuccess then response.content else None
  }

  /** The request `EnGetAsync` sends. */
  function GetRequest(c: Client, o: Options, token: string): (q: Request<()>)
    ensures q.verb == Get && q.baseAddress == c.baseUrl && q.body == NoBody
    ensures |q.target| > 0 && q.target[0] == '/' && q.target[1..] == Spec(o)
    ensures q.bearer.Some? <==> !IsBlank(token)
    ensures q.bearer.Some? ==> q.bearer.value == token
    ensures q.enlToken == Some(EnlToken) && q.timeout == None
  {
    Request(Get, c.baseUrl, Target(o), Bearer(token), Some(EnlToken), None, NoBody)
  }

  /** `EnGetAsync`: the content of a successful response, `None` otherwise. */
  function EnGet<T>(c: Client, o: Options, token: string, send: Request<()> -> Response<T>): (r: Option<T>)
    ensures var response := send(GetRequest(c, o, token));
      (response.isSuccess ==> r == response.content) && (!response.isSuccess ==> r == None)
  {
    Outcome(send(GetRequest(c, o, token)))
  }

  /** The request `EnPostAsJsonAsync` sends: the model as a JSON body. */
  function PostRequest<B>(c: Client, o: Options, model: B, token: string): (q: Request<B>)
    ensures q.verb == Post && q.baseAddress == c.baseUrl && q.body == Json(model)
    ensures |q.target| > 0 && q.target[0] == '/' && q.target[1..] == Spec(o)
    ensures q.bearer.Some? <==> !IsBlank(token)
    ensures q.bearer.Some? ==> q.bearer.value == token
    ensures q.enlToken == Some(EnlToken) && q.timeout == None
  {
    Request(Post, c.baseUrl, Target(o), Bearer(token), Some(EnlToken), None, Json(model))
  }

  /** `EnPostAsJsonAsync`: the content of a successful response, `None` otherwise. */
  function EnPost<B, T>(c: Client, o: Options, model: B, token: string, send: Request<B> -> Response<T>): (r: Option<T>)
    ensures var response := send(PostRequest(c, o, model, token));
      (response.isSuccess ==> r == response.content) && (!response.isSuccess ==> r == None)
  {
    Outcome(send(PostRequest(c, o, model, token)))
  }

  /** `EnAuthRequest` and `EnAuthResponse` (whose `jwt` may be null). */
  datatype AuthRequest = AuthRequest(identifier: string, password: string)
  datatype AuthResponse = AuthResponse(jwt: Option<string>)

  /** The login endpoint. */
  const LoginOptions: Options := Options("/auth/local", [])

  /** The request `GetToken` sends: the credentials posted as JSON to
      `/auth/local` with an empty token. */
  function LoginRequest(c: Client): Request<AuthRequest>
  {
    PostRequest(c, LoginOptions, AuthRequest(c.username, c.password), "")
  }

  /** The login request goes to `/auth/local`, carries the credentials and
      the `Enl-Token` header, and no `Authorization` header. */
  lemma LoginRequestShape(c: Client)
    ensures LoginRequest(c).target == "/auth/local"
    ensures LoginRequest(c).bearer == None
    ensures LoginRequest(c).enlToken == Some(EnlToken)
    ensures LoginRequest(c).body == Json(AuthRequest(c.username, c.password))
  {
    OneLeadingSlash(LoginOptions);
    assert LoginOptions.path[1..] == "auth/local";
  }

  /** The jwt check of `GetToken`: fails when the login gave no result or a
      null, empty or white-space `jwt`, and otherwise hands the `jwt` back
      unchanged. */
  function AcceptToken(result: Option<AuthResponse>): (r: Result<string>)
    ensures r.Ok? <==> result.Some? && result.value.jwt.Some? && !IsBlank(result.value.jwt.value)
    ensures r.Ok? ==> r.value == result.value.jwt.value
    ensures r.Err? ==> r.error == AuthenticationFailed
  {
    match result
    case Some(AuthResponse(Some(jwt))) => if IsBlank(jwt) then Err(AuthenticationFailed) else Ok(jwt)
    case _ => Err(AuthenticationFailed)
  }

  /** `GetToken`: log in and return the jwt; a failed status counts as no
      result, so it fails too. */
  function GetToken(c: Client, send: Request<AuthRequest> -> Response<AuthResponse>): (r: Result<string>)
    ensures var response := send(LoginRequest(c));
      r.Ok? <==> response.isSuccess && response.content.Some?
                 && response.content.value.jwt.Some? && !IsBlank(response.content.value.jwt.value)
    ensures r.Ok? ==> r == Ok(send(LoginRequest(c)).content.value.jwt.value)
    ensures r.Err? ==> r.error == AuthenticationFailed
  {
    AcceptToken(EnPost(c, LoginOptions, AuthRequest(c.username, c.password), "", send))
  }

  /** A token `GetToken` accepts is always sent as `Authorization: Bearer`
      by the JSON calls that are given it. */
  lemma AcceptedTokenIsSent(c: Client, send: Request<AuthRequest> -> Response<AuthResponse>, o: Options)
    requires GetToken(c, send).Ok?
    ensures GetRequest(c, o, GetToken(c, send).value).bearer == Some(GetToken(c, send).value)
  {
  }

  /** Index of the first file that does not exist, or `|files|` when all do. */
  function FirstMissing(files: seq<string>, existing: set<string>): (i: nat)
    ensures i <= |files|
    ensures forall j :: 0 <= j < i ==> files[j] in existing
    ensures i < |files| ==> files[i] !in existing
  {
    if |files| == 0 || files[0] !in existing then 0
    else 1 + FirstMissing(files[1..], existing)
  }

  /** One `files` part per path, in order. */
  function FileParts(files: seq<string>): (parts: seq<Part>)
    ensures |parts| == |files|
    ensures forall j :: 0 <= j < |files| ==> parts[j] == FilePart("files", files[j])
  {
    seq(|files|, j requires 0 <= j < |files| => FilePart("files", files[j]))
  }

  /** The multipart loop of `EnFileUpload`: a `path` field with the
      destination, then a `files` part for each path in order; the first
      path that does not exist aborts with its name. */
  method UploadParts(files: seq<string>, destination: string, existing: set<string>) returns (r: Result<seq<Part>>)
    ensures var i := FirstMissing(files, existing);
      if i < |files| then r == Err(FileNotFound(files[i]))
      else r == Ok([StringPart("path", destination)] + FileParts(files))
  {
    var parts := [StringPart("path", destination)];
    var i := 0;
    while i < |files|
      invariant 0 <= i <= |files|
      invariant forall j :: 0 <= j < i ==> files[j] in existing
      invariant parts == [StringPart("path", destination)] + FileParts(files[..i])
    {
      if files[i] !in existing {
        return Err(FileNotFound(files[i]));
      }
      parts := parts + [FilePart("files", files[i])];
      i := i + 1;
    }
    assert files[..i] == files;
    return Ok(parts);
  }

  /** The request `EnFileUpload` sends: always an `Authorization` header,
      even for a blank token, no `Enl-Token` header, and the timeout. */
  function UploadRequest(c: Client, o: Options, parts: seq<Part>, timeout: int, token: string): (q: Request<()>)
    ensures q.verb == Post && q.baseAddress == c.baseUrl && q.body == Multipart(parts)
    ensures |q.target| > 0 && q.target[0] == '/' && q.target[1..] == Spec(o)
    ensures q.bearer == Some(token) && q.enlToken == None && q.timeout == Some(timeout)
  {
    Request(Post, c.baseUrl, Target(o), Some(token), None, Some(timeout), Multipart(parts))
  }

  /** `Timeout.InfiniteTimeSpan` (minus one millisecond), in ticks of 100 ns. */
  const InfiniteTimeout: int := -10_000

  /** The longest timeout `HttpClient` takes: `int.MaxValue` milliseconds, in ticks. */
  const MaxTimeout: int := 2_147_483_647 * 10_000

  /** The check of the `HttpClient.Timeout` setter: the infinite timeout, or
      a positive one no longer than `MaxTimeout`. */
  predicate TimeoutAccepted(ticks: int)
  {
    ticks == InfiniteTimeout || (0 < ticks <= MaxTimeout)
  }

  /** `EnFileUpload`: an empty list fails first, then a timeout the
      `HttpClient` refuses, then the first missing file; none of these
      failures depends on the network. Otherwise the result rule applies to
      the multipart post. The timeout is in ticks of 100 ns. */
  method EnFileUpload<T>(c: Client, o: Options, files: seq<string>, destination: string, timeout: int,
                         token: string, existing: set<string>, send: Request<()> -> Response<T>)
    returns (r: Result<Option<T>>)
    ensures |files| == 0 ==> r == Err(NoFilesToUpload)
    ensures |files| > 0 && !TimeoutAccepted(timeout) ==> r == Err(TimeoutOutOfRange)
    ensures |files| > 0 && TimeoutAccepted(timeout) && FirstMissing(files, existing) < |files| ==>
      r == Err(FileNotFound(files[FirstMissing(files, existing)]))
    ensures |files| > 0 && TimeoutAccepted(timeout) && FirstMissing(files, existing) == |files| ==>
      r == Ok(Outcome(send(UploadRequest(c, o, [StringPart("path", destination)] + FileParts(files), timeout, token))))
  {
    if |files| == 0 {
      return Err(NoFilesToUpload);
    }
    if !TimeoutAccepted(timeout) {
      return Err(TimeoutOutOfRange);
    }
    var parts := UploadParts(files, destination, existing);
    match parts
    case Err(e) =>
      return Err(e);
    case Ok(ps) =>
      var response := send(UploadRequest(c, o, ps, timeout, token));
      return Ok(Outcome(response));
  }
}
