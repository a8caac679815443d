# Enspace client: endpoint building and request decisions

A model of the C# client `GCScript.Enspace.Enspace` for the Enspace REST API
(`src/GCScript.Enspace/Enspace.cs`). The client picks its host from a mode,
logs in to obtain a jwt, and sends GET, JSON POST and multipart upload
requests to endpoints it builds from a path and a list of query parameters.

The model has four modules:

- `Wrappers` (`wrappers.dfy`): `Option`, `Result` and the `Error` kinds the client throws.
- `Strings` (`strings.dfy`): the .NET string operations the client relies on.
  These are `TrimStart`, `TrimEnd` and `IsNullOrWhiteSpace`, with the
  `char.IsWhiteSpace` table written out. The module also holds `Join`, the
  reference definition of a query string that the builder's loop is proved
  against. It also holds the inverses `Split` and `IndexOf`, and the facts the
  builder's proof needs.
- `Endpoint` (`endpoint.dfy`): `EnEndpointBuilder`.
  - `Build` is the imperative builder: a trimmed path plus a buffer that
    collects `?` and `qp&` per parameter, then loses its last character.
  - `Build` is proved equal to `Spec`, a pure statement of the endpoint.
  - `Parse` is the builder's inverse; `ParseSpec` is the round trip.
- `Enspace` (`enspace.dfy`): the mode switch, the requests each call sends,
  the rule that turns a response into a result, the jwt check, and the
  upload guards and multipart loop.
  - The HTTP exchange is a function parameter `send` from request to response.
  - The file system is a parameter `existing`: the set of paths that exist.

The `Enspace` class has no field that changes after construction, so it is
the datatype `Client`. `New` returns an error where the constructor throws.

Some behaviour of the code that is easy to assume otherwise, and that the
model follows as written:

- `TrimStart('/')` removes every leading slash, not just one.
- The constructor validates only the mode. It does not check the username or the password.
- There is no cached token, no expiry and no refresh. `GetToken` logs in on every call.
- There is no `throwOnError` switch. A non-success status always yields the default value.
- The upload request always sets `Authorization: Bearer <token>`, even for a blank token.
- The upload request does not send the `Enl-Token` header.

## Model

| member | source | states |
|---|---|---|
| `Strings.LeadingCount` | src/GCScript.Enspace/Enspace.cs:81 | `TrimStart('/')` removes a run of characters that are all `/`, and the character after the run is not `/`: every leading slash goes, not just one |
| `Strings.TrimStartUnique` | src/GCScript.Enspace/Enspace.cs:81 | the trimmed path is the only suffix of the path that drops nothing but `/`s and does not start with `/` |
| `Strings.TrimStartRepeat` | src/GCScript.Enspace/Enspace.cs:81 | any number of extra leading slashes leaves the trimmed path unchanged |
| `Strings.TrailingCount` | src/GCScript.Enspace/Enspace.cs:84 | `TrimEnd('/')` removes a run of trailing characters that are all `/`, and the character before the run is not `/` |
| `Strings.WhiteSpaceTable` | src/GCScript.Enspace/Enspace.cs:19 | the white-space test behind `string.IsNullOrWhiteSpace` (used at lines 19, 26 and 43) holds exactly for the .NET set U+0009 to U+000D, U+0020, U+0085, U+00A0, U+1680, U+2000 to U+200A, U+2028, U+2029, U+202F, U+205F and U+3000 |
| `Strings.TerminatedSnoc` | src/GCScript.Enspace/Enspace.cs:86-88 | appending `qp&` for one more parameter extends the buffer's content by exactly that parameter and `&` |
| `Strings.TerminatedJoin` | src/GCScript.Enspace/Enspace.cs:85-89 | for a non-empty list, the buffer of `qp&` pieces is the `&`-join of the parameters plus exactly one final `&`, which `Remove` drops |
| `Endpoint.RemoveLastSeparator` | src/GCScript.Enspace/Enspace.cs:89 | removing the last character of the finished buffer leaves `?` followed by the `&`-join: it drops only the final `&` |
| `Strings.SplitJoin` | src/GCScript.Enspace/Enspace.cs:85-89 | splitting the joined parameters at `&` gives back the parameters in order when none contains `&` |
| `Strings.JoinSplit` | src/GCScript.Enspace/Enspace.cs:85-89 | joining the pieces of any query string split at `&` gives the query string back |
| `Endpoint.BuiltPath` | src/GCScript.Enspace/Enspace.cs:81-84 | the path part never starts with `/`, and with query parameters it never ends with `/` either |
| `Endpoint.Build` | src/GCScript.Enspace/Enspace.cs:80-92 | the buffer-and-remove loop returns exactly `Spec`: the trimmed path, then `?` and the `&`-join of the parameters when there is at least one |
| `Endpoint.NoLeadingSlash` | src/GCScript.Enspace/Enspace.cs:81-91 | a built endpoint is empty or does not start with `/` |
| `Endpoint.LeadingSlashesIrrelevant` | src/GCScript.Enspace/Enspace.cs:81 | paths that differ only in their number of leading slashes build the same endpoint |
| `Endpoint.WithoutQueryParameters` | src/GCScript.Enspace/Enspace.cs:81-83 | with no parameters the endpoint is the path minus all its leading slashes: a suffix of it whose dropped prefix is all `/` and which does not itself start with `/`, trailing slashes kept, no `?` added |
| `Endpoint.OneLeadingSlash` | src/GCScript.Enspace/Enspace.cs:81 | a path with exactly one leading slash and no query parameters builds the path without that slash (as `/auth/local` becomes `auth/local`) |
| `Endpoint.ParseSpec` | src/GCScript.Enspace/Enspace.cs:83-91 | splitting a built endpoint at its first `?` and then at `&` recovers the trimmed path and the parameters in order, when the path has no `?` and no parameter has `&` |
| `Endpoint.Target` | src/GCScript.Enspace/Enspace.cs:30 | the request target is `/` followed by the endpoint and starts with exactly one `/` |
| `Enspace.BaseUrl` | src/GCScript.Enspace/Enspace.cs:9-13 | the two named modes give an `https://` host without a trailing slash; any other mode value is an `InvalidMode` error |
| `Enspace.BaseUrlHosts` | src/GCScript.Enspace/Enspace.cs:9-13 | `Production` maps to `https://api.enspace.io` and `Development` to `https://api.stage.enspace.io`, and the two differ |
| `Enspace.New` | src/GCScript.Enspace/Enspace.cs:8-13 | construction fails exactly for an invalid mode; otherwise the client keeps the mode's host and the credentials as given |
| `Enspace.Bearer` | src/GCScript.Enspace/Enspace.cs:26 | the `Authorization` header is set, to the token itself, exactly when the token is not empty or white space |
| `Enspace.Outcome` | src/GCScript.Enspace/Enspace.cs:32-37 | a success status yields the parsed content; any other status yields the absent default and never an error |
| `Enspace.GetRequest` | src/GCScript.Enspace/Enspace.cs:24-30 | a GET to the client's base address with target `/` plus the built endpoint, a bearer header exactly for a non-blank token and then carrying that token, and the `Enl-Token` header |
| `Enspace.EnGet` | src/GCScript.Enspace/Enspace.cs:23-38 | the content of the response to that request on success, and `None` on any other status |
| `Enspace.PostRequest` | src/GCScript.Enspace/Enspace.cs:41-47 | a POST with the model as its JSON body, the same target as a GET, a bearer header exactly for a non-blank token and then carrying that token, and the `Enl-Token` header |
| `Enspace.EnPost` | src/GCScript.Enspace/Enspace.cs:40-50 | the content of the response on success, and `None` on any other status |
| `Enspace.LoginRequestShape` | src/GCScript.Enspace/Enspace.cs:16-18 | login posts `identifier` and `password` as JSON to `/auth/local` with the `Enl-Token` header and no `Authorization` header |
| `Enspace.AcceptToken` | src/GCScript.Enspace/Enspace.cs:19-20 | the token is accepted exactly when a result is present and its `jwt` is neither null nor blank, and then it is returned unchanged; otherwise authentication fails |
| `Enspace.GetToken` | src/GCScript.Enspace/Enspace.cs:15-21 | the jwt of a successful login response that carries a non-blank jwt, unchanged; any other response, including a failed status, is an authentication error |
| `Enspace.AcceptedTokenIsSent` | src/GCScript.Enspace/Enspace.cs:19-26 | a token `GetToken` accepts is always sent as the bearer header of a GET |
| `Enspace.FirstMissing` | src/GCScript.Enspace/Enspace.cs:64-65 | the index of the first path that does not exist: every earlier path exists |
| `Enspace.FileParts` | src/GCScript.Enspace/Enspace.cs:64-69 | one `files` part per path, in the order of the list |
| `Enspace.UploadParts` | src/GCScript.Enspace/Enspace.cs:60-70 | the multipart loop fails naming the first missing file, or yields the `path` field and then one `files` part per path in order |
| `Enspace.UploadRequest` | src/GCScript.Enspace/Enspace.cs:55-73 | the upload POST carries the multipart body, the timeout and a bearer header for any token, and no `Enl-Token` header |
| `Enspace.EnFileUpload` | src/GCScript.Enspace/Enspace.cs:52-77 | an empty file list fails first; then a timeout that `HttpClient.Timeout` refuses (anything but the infinite timeout or a positive one of at most `int.MaxValue` milliseconds) fails; then the first missing file fails; none of these depends on the network; otherwise the result rule applies to the upload's response |

## Left out

- HTTP transport: `HttpClient` creation, async I/O and URI resolution are left out. The exchange is the parameter `send`, and a request records the base address and target separately.
- Network errors, and JSON content that cannot be read, throw in the client. The model does not represent those exceptions.
- JSON serialisation and deserialisation are library code. The response's `content` stands for what `ReadFromJsonAsync` yields.
- File-system access is the parameter `existing`. File bytes, MIME lookup and `Path.GetFileName` are left out, so a `files` part records the path it was read from.
- `EnFileUpload` also reads the response as a string, which is then unused. The model omits that read.
- `src/GCScript.Enspace/Models/WorkspacesResponse.cs` is a data class with no behaviour, so it is not part of this model.
- The definition of `EnMode` is not part of this model. `Undefined(raw)` stands for any integer cast to the enum that names neither member.
- Response types are taken to be reference types. For those, `default` is null and the model's `None` stands for it. For a value type, lines 36, 49 and 76 would return that type's default (such as 0), and `ReadFromJsonAsync` would throw on a JSON `null`. Neither case is modelled.
- `Endpoint.Build`: a query parameter cannot be null in the model (`seq<string>`). At line 87, `$"{qp}&"` turns a null parameter into a bare `&`, and the model does not capture that.
- `Enspace.UploadParts`: `MultipartFormDataContent.Add` throws when `Path.GetFileName(filePath)` is blank (an existing file named `" "`, say). The model returns `Ok` there, because file names are not modelled.
- The definition of `EnEndpointOptions` is not part of this model. The login options at line 16 set no query parameters, and the model takes the default to be an empty list. If the default were null, `.Count` at line 83 would throw and every login would fail.
