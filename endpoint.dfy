/** `EnEndpointBuilder`: turns an endpoint options value (a path and an
    ordered list of already-encoded `key=value` query parameters) into the
    endpoint the client appends, after one `/`, to the API's base address. */
module Endpoint {
  import opened Strings

  /** `EnEndpointOptions`: the path and the query parameters in order. */
  datatype Options = Options(path: string, queryParameters: seq<string>)

  /** The path as the builder uses it: leading slashes always removed,
      trailing slashes removed too when a query string follows. */
  function BuiltPath(o: Options): (p: string)
    ensures p == [] || p[0] != '/'
    ensures |o.queryParameters| > 0 ==> p == [] || p[|p| - 1] != '/'
  {
    var trimmed := TrimStart(o.path, '/');
    if |o.queryParameters| == 0 then trimmed else TrimEnd(trimmed, '/')
  }

  /** The endpoint the builder returns, stated without the buffer. */
  function Spec(o: Options): string
  {
    if |o.queryParameters| == 0 then BuiltPath(o)
    else BuiltPath(o) + ("?" + Join(o.queryParameters, '&'))
  }

  /** After the loop: dropping the last character of `?` and all parts
      terminated leaves `?` and the join. */
  lemma RemoveLastSeparator(parts: seq<string>, sep: char)
    requires |parts| > 0
    ensures var b := ['?'] + Terminated(parts, sep);
      |b| > 0 && b[..|b| - 1] == ['?'] + Join(parts, sep)
  {
    TerminatedJoin(parts, sep);
    var b := ['?'] + Terminated(parts, sep);
    assert b == (['?'] + Join(parts, sep)) + [sep];
  }

  /** `EnEndpointBuilder`: the path is trimmed in place, a buffer collects
      `?` and then `qp&` for each parameter, and the last character of the
      buffer is removed before the two are concatenated. */
  method Build(o: Options) returns (endpoint: string)
    ensures endpoint == Spec(o)
  {
    var path := TrimStart(o.path, '/');
    var buffer: string := [];
    if |o.queryParameters| > 0 {
      path := TrimEnd(path, '/');
      buffer := buffer + ['?'];
      var qps := o.queryParameters;
      for k := 0 to |qps|
        invariant buffer == ['?'] + Terminated(qps[..k], '&')
      {
        TerminatedPrefix(['?'], qps, k, '&');
        buffer := buffer + qps[k] + ['&'];
      }
      assert qps[..|qps|] == qps;
      RemoveLastSeparator(qps, '&');
      // Remove(Length - 1, 1): the buffer holds at least the '?'.
      buffer := buffer[..|buffer| - 1];
    }
    endpoint := path + buffer;
  }

  /** The endpoint never begins with `/`, whatever the path holds. */
  lemma NoLeadingSlash(o: Options)
    ensures Spec(o) == [] || Spec(o)[0] != '/'
  {
  }

  /** Paths that differ only in how many slashes they start with
      (`"foo"`, `"/foo"`, `"//foo"`) build the same endpoint. */
  lemma LeadingSlashesIrrelevant(o: Options, count: nat)
    ensures Spec(Options(Repeat('/', count) + o.path, o.queryParameters)) == Spec(o)
  {
    TrimStartRepeat('/', count, o.path);
  }

  /** Without query parameters the endpoint is the path minus its leading
      slashes: a suffix of the path, trailing slashes kept, no `?` added. */
  lemma WithoutQueryParameters(o: Options)
    requires |o.queryParameters| == 0
    ensures var e := Spec(o);
      |e| <= |o.path| && e == o.path[|o.path| - |e|..]
      && (forall i :: 0 <= i < |o.path| - |e| ==> o.path[i] == '/')
      && (e == [] || e[0] != '/')
      && ('?' in e ==> '?' in o.path)
  {
  }

  /** A path with exactly one leading slash and no query parameters builds
      the path without that slash. */
  lemma OneLeadingSlash(o: Options)
    requires |o.queryParameters| == 0
    requires |o.path| > 0 && o.path[0] == '/' && (|o.path| == 1 || o.path[1] != '/')
    ensures Spec(o) == o.path[1..]
  {
    assert TrimStart(o.path, '/') == TrimStart(o.path[1..], '/');
  }

  /** The inverse of the builder: split an endpoint at its first `?` and the
      query string at every `&`. */
  function Parse(endpoint: string): Options
  {
    var i := IndexOf(endpoint, '?');
    if i == |endpoint| then Options(endpoint, [])
    else Options(endpoint[..i], Split(endpoint[i + 1..], '&'))
  }

  /** Parsing a built endpoint gives back the trimmed path and the query
      parameters in their original order, when the path holds no `?` and no
      parameter holds `&` (the builder does not escape either). */
  lemma ParseSpec(o: Options)
    requires '?' !in o.path
    requires forall i :: 0 <= i < |o.queryParameters| ==> '&' !in o.queryParameters[i]
    ensures Parse(Spec(o)) == Options(BuiltPath(o), o.queryParameters)
  {
    var p := BuiltPath(o);
    TrimKeepsAbsent(o.path, '/', '?');
    TrimKeepsAbsent(TrimStart(o.path, '/'), '/', '?');
    assert '?' !in p;
    var e := Spec(o);
    if |o.queryParameters| == 0 {
      IndexOfAt(e, '?', |e|);
    } else {
      var q := Join(o.queryParameters, '&');
      assert e == p + "?" + q;
      IndexOfAt(e, '?', |p|);
      assert e[..|p|] == p;
      assert e[|p| + 1..] == q;
      SplitJoin(o.queryParameters, '&');
    }
  }

  /** The request target the client sends: one `/` and then the endpoint,
      so it starts with exactly one slash. */
  function Target(o: Options): (t: string)
    ensures |t| >= 1 && t[0] == '/' && (|t| == 1 || t[1] != '/')
    ensures t[1..] == Spec(o)
  {
    NoLeadingSlash(o);
    "/" + Spec(o)
  }
}
