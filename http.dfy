/** What both versions of the proxy share: requests and replies as the
    handler sees them, the calls it makes to substituters and their answers,
    and the two local-store branches (serving a file, storing an upload). */
module Http {
  import opened Wrappers
  import Store
  import NodePath
  import Url

  type Byte = Store.Byte

  /** Header names as Node delivers them (lower case) mapped to their values. */
  type Headers = map<string, string>

  /** A method name other than the four the handlers tell apart. */
  type OtherName = s: string | s != "GET" && s != "HEAD" && s != "PUT" && s != "POST" witness "DELETE"

  /** `req.method` (the field `verb` below); `OtherMethod` carries any other name. */
  datatype Method = GET | HEAD | PUT | POST | OtherMethod(name: OtherName)

  /** An incoming request; `url` is `req.url`, the empty string when absent. */
  datatype Request = Request(verb: Method, url: string, headers: Headers, body: seq<Byte>)

  /** A body written with `res.end(text)`, piped from bytes, or none. */
  datatype Body = NoBody | Text(text: string) | Bytes(data: seq<Byte>)

  /** The status, headers and body the handler writes. */
  datatype Reply = Reply(status: int, headers: Headers, body: Body)

  /** How handling a request ends: with a reply; with the handler returning
      before writing anything, so the client waits for ever; or with an
      error that escapes the handler (an unhandled promise rejection or an
      `error` event nobody listens to). */
  datatype Outcome = Answered(reply: Reply) | Unanswered | Escaped

  /** An outgoing call: `fetch(url, { method: "HEAD" })`, or an `https.request`
      with explicit hostname, port, path, method, headers and body. */
  datatype Call =
    | Fetch(target: Url.Url)
    | HttpsRequest(verb: Method, hostname: string, port: nat, path: string, headers: Headers, body: seq<Byte>)

  /** What a call yields: a response (its status code may be missing), or
      a failure: the connection fails, the request times out, the scheme is
      not supported. */
  datatype Answer = Response(status: Option<int>, headers: Headers, body: seq<Byte>) | NetError

  /** The substituters' behaviour, given as an input to the model. */
  type Network = Call -> Answer

  /** The store root of both versions. */
  const Root := "/tmp/nix-cache"

  function PlainText(status: int, text: string): Reply
  {
    Reply(status, map["Content-Type" := "text/plain"], Text(text))
  }

  /** `delete req.headers.host; delete req.headers.referer`. */
  function StripHopHeaders(h: Headers): (r: Headers)
    ensures r.Keys == h.Keys - {"host", "referer"}
    ensures forall k :: k in r ==> r[k] == h[k]
  {
    h - {"host", "referer"}
  }

  /** `mimeTypes[ext] || "application/octet-stream"`. */
  function ContentType(table: map<string, string>, ext: string): (r: string)
    ensures ext in table ==> r == table[ext]
    ensures ext !in table ==> r == "application/octet-stream"
  {
    if ext in table then table[ext] else "application/octet-stream"
  }

  /** The headers of a file served from the store. */
  function FileHeaders(table: map<string, string>, path: string): Headers
  {
    map[
      "Content-Type" := ContentType(table, NodePath.Ext(path)),
      "Content-Disposition" := "attachment; filename=\"" + NodePath.Basename(path) + "\""
    ]
  }

  /** The headers of a stored "<stem>.<e>": the table's type for "." + e
      and the file's own name. */
  lemma DottedFileHeaders(table: map<string, string>, stem: string, e: string)
    requires stem != [] && '/' !in stem && '/' !in e && '.' !in e && stem + "." + e != ".."
    ensures var name := stem + "." + e;
      FileHeaders(table, NodePath.Join(Root, "/" + name)) == map[
        "Content-Type" := ContentType(table, "." + e),
        "Content-Disposition" := "attachment; filename=\"" + name + "\""]
  {
    NodePath.JoinDotted(Root, stem, e);
  }

  /** "<stem>.narinfo" is the stem, a dot and "narinfo". */
  lemma NarinfoName(stem: string)
    ensures stem + ".narinfo" == stem + "." + "narinfo"
    ensures "/" + stem + ".narinfo" == "/" + (stem + "." + "narinfo")
  {
    assert "." + "narinfo" == ".narinfo";
    assert stem + "." + "narinfo" == stem + ("." + "narinfo");
  }

  /** The local branch of a GET: 404 with `notFound` when nothing exists at
      the path; otherwise 200 with the file headers, then the file's bytes,
      or `streamError` when the read stream fails (the path is a directory). */
  function ServeFile(fs: Store.Fs, path: string, table: map<string, string>, notFound: string, streamError: string): (r: Reply)
    ensures !Store.Exists(fs, path) <==> r == PlainText(404, notFound)
    ensures path in fs.files ==> r == Reply(200, FileHeaders(table, path), Bytes(fs.files[path]))
  {
    match Store.ReadFile(fs, path)
    case Missing => PlainText(404, notFound)
    case Directory => Reply(200, FileHeaders(table, path), Text(streamError))
    case Content(data) => Reply(200, FileHeaders(table, path), Bytes(data))
  }

  /** The result of a handler step: how it ended, the calls it made in
      order, and the store afterwards. */
  datatype Step = Step(outcome: Outcome, calls: seq<Call>, fs: Store.Fs)
}
