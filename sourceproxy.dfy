/** The proxy as written in src/proxy.ts: the substituter list is read once
    at startup; GET and HEAD probe each substituter with a `fetch` HEAD and,
    for GET, forward the request to the first one whose probe is ok; failing
    that they fall back to the local store; PUT stores the request body.
    Nothing catches an error, so a probe that fails at the network level
    escapes the handler instead of moving on to the next substituter. */
module SourceProxy {
  import opened Wrappers
  import opened Http
  import Store
  import NodePath
  import Url
  import Substituters

  /** The suffix table of src/proxy.ts. */
  const MimeTypes: map<string, string> := map[
    ".nar" := "application/x-nix-nar",
    ".nar.xz" := "application/x-nix-nar+x-xz",
    ".narinfo" := "application/x-nix-narinfo",
    ".html" := "text/html",
    ".js" := "text/javascript",
    ".css" := "text/css",
    ".json" := "application/json",
    ".png" := "image/png",
    ".jpg" := "image/jpg",
    ".gif" := "image/gif",
    ".svg" := "image/svg+xml",
    ".wav" := "audio/wav",
    ".mp4" := "video/mp4",
    ".woff" := "application/font-woff",
    ".ttf" := "application/font-ttf",
    ".eot" := "application/vnd.ms-fontobject",
    ".otf" := "application/font-otf",
    ".wasm" := "application/wasm"
  ]

  /** A successful probe: the URL it fetched and the status it got. */
  datatype ProbeHit = ProbeHit(target: Url.Url, status: int)

  /** `response.ok`: a status in 200..299. */
  predicate IsOk(status: Option<int>) {
    status.Some? && 200 <= status.value <= 299
  }

  /** Probing one substituter: `new URL(req.url, sub)` (which may throw),
      then `await fetch(url, { method: "HEAD" })` (which rejects on a
      network failure). */
  function Probe(sub: string, url: string, net: Network): Substituters.Probe<ProbeHit>
  {
    match Url.Resolve(url, sub)
    case None => Substituters.Throws
    case Some(u) =>
      match net(Fetch(u))
      case NetError => Substituters.Throws
      case Response(status, _, _) =>
        if IsOk(status) then Substituters.Hit(ProbeHit(u, status.value)) else Substituters.Passed
  }

  function Prober(url: string, net: Network): string -> Substituters.Probe<ProbeHit>
  {
    sub => Probe(sub, url, net)
  }

  /** The calls that probing one substituter makes. */
  function ProbeCalls(sub: string, url: string): seq<Call>
  {
    match Url.Resolve(url, sub)
    case None => []
    case Some(u) => [Fetch(u)]
  }

  function Caller(url: string): string -> seq<Call>
  {
    sub => ProbeCalls(sub, url)
  }

  /** The request a GET is forwarded with: the probed URL's host name, port
      443, the client's own path, method and body, and its headers without
      `host` and `referer`. */
  function Forward(req: Request, target: Url.Url): Call
  {
    HttpsRequest(req.verb, Url.Hostname(target.authority), 443, req.url, StripHopHeaders(req.headers), req.body)
  }

  /** What the client gets from the forwarded request: 502 "Bad Gateway" on
      an `error` event, otherwise the upstream status (200 when it is
      missing or 0) with the upstream headers and body. */
  function Relay(a: Answer): (r: Reply)
    ensures a.NetError? <==> r.body.Text?
    ensures a.NetError? ==> r == PlainText(502, "Bad Gateway")
    ensures a.Response? ==> r.headers == a.headers && r.body == Bytes(a.body)
    ensures a.Response? && a.status.Some? && a.status.value != 0 ==> r.status == a.status.value
    ensures a.Response? && (a.status.None? || a.status.value == 0) ==> r.status == 200
    ensures r.status != 0
  {
    match a
    case NetError => PlainText(502, "Bad Gateway")
    case Response(status, headers, body) =>
      Reply(if status.Some? && status.value != 0 then status.value else 200, headers, Bytes(body))
  }

  /** The local branch, shared by GET and HEAD. */
  function Local(fs: Store.Fs, url: string): Reply
  {
    ServeFile(fs, NodePath.Join(Root, url), MimeTypes, "Not Found", "Error streaming file")
  }

  /** A GET or HEAD: the specification of `Server.ResolveRead`. */
  function Read(subs: seq<string>, fs: Store.Fs, req: Request, net: Network): Step
    requires req.verb == GET || req.verb == HEAD
  {
    var probes := Substituters.ScanContacts(subs, Prober(req.url, net), Caller(req.url));
    match Substituters.Scan(subs, Prober(req.url, net))
    case Aborted(_) => Step(Escaped, probes, fs)
    case Found(_, hit) =>
      if req.verb == HEAD then Step(Answered(Reply(hit.status, map[], NoBody)), probes, fs)
      else Step(Answered(Relay(net(Forward(req, hit.target)))), probes + [Forward(req, hit.target)], fs)
    case Exhausted => Step(Answered(Local(fs, req.url)), probes, fs)
  }

  /** A PUT: the specification of `Server.Save`. A failing `mkdirSync`
      rejects the handler; a failing write stream emits an `error` event
      with no listener. */
  function Put(fs: Store.Fs, req: Request): Step
  {
    match Store.Upload(fs, NodePath.Join(Root, req.url), req.body)
    case MkdirFailed => Step(Escaped, [], fs)
    case WriteFailed(after) => Step(Escaped, [], after)
    case Written(after) => Step(Answered(PlainText(201, "Created")), [], after)
  }

  /** The whole handler: the specification of `Server.Handle`. */
  function Respond(subs: seq<string>, fs: Store.Fs, req: Request, net: Network): Step
  {
    if req.url == "" then Step(Unanswered, [], fs)
    else
      match req.verb
      case GET => Read(subs, fs, req, net)
      case HEAD => Read(subs, fs, req, net)
      case PUT => Put(fs, req)
      case _ => Step(Unanswered, [], fs)
  }

  /** The walk up to and including a substituter that passes. */
  lemma WalkContinues(subs: seq<string>, url: string, i: nat)
    requires i < |subs|
    ensures Substituters.Contacts(subs[..i + 1], Caller(url))
         == Substituters.Contacts(subs[..i], Caller(url)) + ProbeCalls(subs[i], url)
  {
    Substituters.ContactsSnoc(subs, Caller(url), i);
  }

  /** Where the walk stops at a substituter that does not pass: what `Scan`
      gives and the calls made up to there. */
  lemma WalkStops(subs: seq<string>, url: string, net: Network, i: nat)
    requires i < |subs| && !Probe(subs[i], url, net).Passed?
    requires forall j :: 0 <= j < i ==> Probe(subs[j], url, net).Passed?
    ensures Substituters.Scan(subs, Prober(url, net))
         == if Probe(subs[i], url, net).Throws? then Substituters.Aborted(i)
            else Substituters.Found(i, Probe(subs[i], url, net).hit)
    ensures Substituters.ScanContacts(subs, Prober(url, net), Caller(url))
         == Substituters.Contacts(subs[..i], Caller(url)) + ProbeCalls(subs[i], url)
  {
    Substituters.WalkStopsAt(subs, Prober(url, net), Caller(url), i);
  }

  /** A walk in which every substituter passes contacts each of them once. */
  lemma WalkExhausted(subs: seq<string>, url: string, net: Network)
    requires forall j :: 0 <= j < |subs| ==> Probe(subs[j], url, net).Passed?
    ensures Substituters.Scan(subs, Prober(url, net)).Exhausted?
    ensures Substituters.ScanContacts(subs, Prober(url, net), Caller(url))
         == Substituters.Contacts(subs, Caller(url))
  {
    Substituters.WalkExhaustedAt(subs, Prober(url, net), Caller(url));
  }

  /** One turn of the walk: `new URL(req.url, substituter)`, then the
      `fetch` with method HEAD and the test of `response.ok`. */
  method Ask(sub: string, url: string, net: Network) returns (probe: Substituters.Probe<ProbeHit>, made: seq<Call>)
    ensures probe == Probe(sub, url, net) && made == ProbeCalls(sub, url)
  {
    var target := Url.Resolve(url, sub);
    if target.None? {
      return Substituters.Throws, [];
    }
    made := [Fetch(target.value)];
    var answer := net(Fetch(target.value));
    if answer.NetError? {
      probe := Substituters.Throws;
    } else if IsOk(answer.status) {
      probe := Substituters.Hit(ProbeHit(target.value, answer.status.value));
    } else {
      probe := Substituters.Passed;
    }
  }

  class Server {
    /** The list read at startup; the source never changes it. */
    const substituters: seq<string>
    /** The store under `Root`. */
    var fs: Store.Fs

    ghost predicate Valid()
      reads this
    {
      Store.Valid(fs)
    }

    /** Startup, given the output of `nix config show substituters` and the
        store as it is on disk. */
    constructor (configOutput: string, initial: Store.Fs)
      requires Store.Valid(initial)
      ensures Valid()
      ensures substituters == Substituters.Parse(configOutput) && fs == initial
    {
      substituters := Substituters.Parse(configOutput);
      fs := initial;
    }

    /** The `for (const substituter of substituters)` loop of a GET or
        HEAD: probe each substituter in turn until one is ok or a probe
        throws. */
    method Walk(url: string, net: Network) returns (scanned: Substituters.Scanned<ProbeHit>, calls: seq<Call>)
      ensures scanned == Substituters.Scan(substituters, Prober(url, net))
      ensures calls == Substituters.ScanContacts(substituters, Prober(url, net), Caller(url))
    {
      calls := [];
      var i := 0;
      assert substituters[..0] == [];
      while i < |substituters|
        invariant 0 <= i <= |substituters|
        invariant forall j :: 0 <= j < i ==> Probe(substituters[j], url, net).Passed?
        invariant calls == Substituters.Contacts(substituters[..i], Caller(url))
      {
        var probe, made := Ask(substituters[i], url, net);
        calls := calls + made;
        match probe {
          case Throws =>
            WalkStops(substituters, url, net, i);
            return Substituters.Aborted(i), calls;
          case Hit(hit) =>
            WalkStops(substituters, url, net, i);
            return Substituters.Found(i, hit), calls;
          case Passed =>
        }
        assert forall j :: 0 <= j < i + 1 ==> Probe(substituters[j], url, net).Passed?;
        WalkContinues(substituters, url, i);
        assert calls == Substituters.Contacts(substituters[..i + 1], Caller(url));
        i := i + 1;
      }
      WalkExhausted(substituters, url, net);
      scanned := Substituters.Exhausted;
    }

    /** GET and HEAD: the walk, then the HEAD reply or the forwarded GET
        it decides, or the local fallback. */
    method ResolveRead(req: Request, net: Network) returns (out: Outcome, calls: seq<Call>)
      requires req.verb == GET || req.verb == HEAD
      ensures Step(out, calls, fs) == Read(substituters, fs, req, net)
    {
      var scanned;
      scanned, calls := Walk(req.url, net);
      match scanned {
        case Aborted(_) =>
          out := Escaped;
        case Found(_, hit) =>
          if req.verb == HEAD {
            out := Answered(Reply(hit.status, map[], NoBody));
          } else {
            var forward := HttpsRequest(req.verb, Url.Hostname(hit.target.authority), 443, req.url,
                                        StripHopHeaders(req.headers), req.body);
            calls := calls + [forward];
            out := Answered(Relay(net(forward)));
          }
        case Exhausted =>
          out := Answered(Local(fs, req.url));
      }
    }

    /** The PUT branch: create the parent directory if it is missing, then
        write the body, truncating what was there. */
    method Save(req: Request) returns (out: Outcome)
      requires Valid()
      modifies this
      ensures Valid()
      ensures Step(out, [], fs) == Put(old(fs), req)
    {
      var path := NodePath.Join(Root, req.url);
      var dir := NodePath.Dirname(path);
      if !Store.Exists(fs, dir) {
        var made := Store.MakeDirs(fs, dir);
        if made.Err? {
          out := Escaped;
          return;
        }
        fs := made.value;
      }
      var written := Store.WriteFile(fs, path, req.body);
      if written.Err? {
        out := Escaped;
        return;
      }
      fs := written.value;
      out := Answered(PlainText(201, "Created"));
    }

    /** The request handler passed to `createServer`. */
    method Handle(req: Request, net: Network) returns (out: Outcome, calls: seq<Call>)
      requires Valid()
      modifies this
      ensures Valid()
      ensures Step(out, calls, fs) == Respond(substituters, old(fs), req, net)
    {
      if req.url == "" {
        return Unanswered, [];
      }
      match req.verb {
        case GET =>
          out, calls := ResolveRead(req, net);
        case HEAD =>
          out, calls := ResolveRead(req, net);
        case PUT =>
          out := Save(req);
          calls := [];
        case _ =>
          out, calls := Unanswered, [];
      }
    }
  }
  /** Each substituter that resolves is contacted exactly once, with a HEAD
      `fetch` of the resolved URL, in list order. */
  lemma ContactsOfResolved(subs: seq<string>, url: string, n: nat)
    requires n <= |subs|
    requires forall j :: 0 <= j < n ==> Url.Resolve(url, subs[j]).Some?
    ensures var calls := Substituters.Contacts(subs[..n], Caller(url));
      |calls| == n && forall j :: 0 <= j < n ==> calls[j] == Fetch(Url.Resolve(url, subs[j]).value)
  {
    forall j | 0 <= j < n
      ensures Caller(url)(subs[j]) == [Fetch(Url.Resolve(url, subs[j]).value)]
    {
      ProbeCallsOf(subs[j], url);
    }
    Substituters.ContactsOfSingles(subs, Caller(url), n);
  }

  /** A probe hits only with an ok status from the URL the substituter resolves the path to. */
  lemma HitOf(sub: string, url: string, net: Network)
    requires Probe(sub, url, net).Hit?
    ensures Url.Resolve(url, sub).Some?
    ensures Probe(sub, url, net).hit.target == Url.Resolve(url, sub).value
    ensures 200 <= Probe(sub, url, net).hit.status <= 299
  {
  }

  /** Conversely, an ok status from the URL the substituter resolves the
      path to is a hit. */
  lemma HitWhen(sub: string, url: string, net: Network, u: Url.Url, status: int, headers: Headers, body: seq<Byte>)
    requires Url.Resolve(url, sub) == Some(u)
    requires net(Fetch(u)) == Response(Some(status), headers, body)
    requires 200 <= status <= 299
    ensures Probe(sub, url, net) == Substituters.Hit(ProbeHit(u, status))
  {
  }

  /** A probe throws exactly when `new URL` rejects the substituter as a
      base or the `fetch` of the resolved URL fails. */
  lemma ThrowsWhen(sub: string, url: string, net: Network)
    ensures Probe(sub, url, net).Throws?
        <==> Url.Resolve(url, sub).None? || net(Fetch(Url.Resolve(url, sub).value)).NetError?
  {
  }

  /** A probe passes exactly when the resolved URL answers with a status
      that is not ok (missing, or outside 200..299). */
  lemma PassesWhen(sub: string, url: string, net: Network)
    ensures Probe(sub, url, net).Passed?
        <==> && Url.Resolve(url, sub).Some?
             && net(Fetch(Url.Resolve(url, sub).value)).Response?
             && !IsOk(net(Fetch(Url.Resolve(url, sub).value)).status)
  {
  }

  /** A probe that does not throw had a URL to fetch. */
  lemma ResolvedUnlessThrows(sub: string, url: string, net: Network)
    requires !Probe(sub, url, net).Throws?
    ensures Url.Resolve(url, sub).Some?
  {
  }

  lemma ProbeCallsOf(sub: string, url: string)
    requires Url.Resolve(url, sub).Some?
    ensures ProbeCalls(sub, url) == [Fetch(Url.Resolve(url, sub).value)]
  {
  }

  /** The first substituter whose probe is ok answers the request: a HEAD
      gets the probe's status with no headers and no body; a GET is
      forwarded to that substituter's host on port 443 with the client's
      path, method and body and its headers without `host` and `referer`,
      and the client gets what comes back. Each substituter up to it was
      probed once, in order, and the store was neither read nor changed. */
  lemma FirstOkProbeWins(subs: seq<string>, fs: Store.Fs, req: Request, net: Network, k: nat)
    requires req.url != "" && (req.verb == GET || req.verb == HEAD)
    requires k < |subs| && Probe(subs[k], req.url, net).Hit?
    requires forall j :: 0 <= j < k ==> Probe(subs[j], req.url, net).Passed?
    ensures 200 <= Probe(subs[k], req.url, net).hit.status <= 299
    ensures Respond(subs, fs, req, net).fs == fs
    ensures |Respond(subs, fs, req, net).calls| > k && forall j :: 0 <= j <= k ==>
      Url.Resolve(req.url, subs[j]).Some? && Respond(subs, fs, req, net).calls[j] == Fetch(Url.Resolve(req.url, subs[j]).value)
    ensures req.verb == HEAD ==>
      && |Respond(subs, fs, req, net).calls| == k + 1
      && Respond(subs, fs, req, net).outcome == Answered(Reply(Probe(subs[k], req.url, net).hit.status, map[], NoBody))
    ensures req.verb == GET ==>
      var forward := HttpsRequest(GET, Url.Hostname(Probe(subs[k], req.url, net).hit.target.authority), 443,
                                  req.url, StripHopHeaders(req.headers), req.body);
      && |Respond(subs, fs, req, net).calls| == k + 2
      && Respond(subs, fs, req, net).calls[k + 1] == forward
      && Respond(subs, fs, req, net).outcome == Answered(Relay(net(forward)))
  {
    HitOf(subs[k], req.url, net);
    FirstOkCalls(subs, fs, req, net, k);
    FirstOkReply(subs, fs, req, net, k);
  }

  /** The calls and the store of a read whose walk stops at an ok probe. */
  lemma FirstOkCalls(subs: seq<string>, fs: Store.Fs, req: Request, net: Network, k: nat)
    requires req.url != "" && (req.verb == GET || req.verb == HEAD)
    requires k < |subs| && Probe(subs[k], req.url, net).Hit?
    requires forall j :: 0 <= j < k ==> Probe(subs[j], req.url, net).Passed?
    ensures Respond(subs, fs, req, net).fs == fs
    ensures |Respond(subs, fs, req, net).calls| > k && forall j :: 0 <= j <= k ==>
      Url.Resolve(req.url, subs[j]).Some? && Respond(subs, fs, req, net).calls[j] == Fetch(Url.Resolve(req.url, subs[j]).value)
  {
    FirstOkStep(subs, fs, req, net, k);
    var probes := Substituters.Contacts(subs[..k + 1], Caller(req.url));
    ProbesUpTo(subs, req.url, net, k);
    var step := Respond(subs, fs, req, net);
    var hit := Probe(subs[k], req.url, net).hit;
    assert step.calls == if req.verb == HEAD then probes else probes + [Forward(req, hit.target)];
    assert step.calls[..k + 1] == probes;
    forall j | 0 <= j <= k
      ensures step.calls[j] == Fetch(Url.Resolve(req.url, subs[j]).value)
    {
      assert step.calls[j] == probes[j];
    }
  }

  /** The reply of a read whose walk stops at an ok probe. */
  lemma FirstOkReply(subs: seq<string>, fs: Store.Fs, req: Request, net: Network, k: nat)
    requires req.url != "" && (req.verb == GET || req.verb == HEAD)
    requires k < |subs| && Probe(subs[k], req.url, net).Hit?
    requires forall j :: 0 <= j < k ==> Probe(subs[j], req.url, net).Passed?
    ensures req.verb == HEAD ==>
      && |Respond(subs, fs, req, net).calls| == k + 1
      && Respond(subs, fs, req, net).outcome == Answered(Reply(Probe(subs[k], req.url, net).hit.status, map[], NoBody))
    ensures req.verb == GET ==>
      var forward := HttpsRequest(GET, Url.Hostname(Probe(subs[k], req.url, net).hit.target.authority), 443,
                                  req.url, StripHopHeaders(req.headers), req.body);
      && |Respond(subs, fs, req, net).calls| == k + 2
      && Respond(subs, fs, req, net).calls[k + 1] == forward
      && Respond(subs, fs, req, net).outcome == Answered(Relay(net(forward)))
  {
    FirstOkStep(subs, fs, req, net, k);
    ProbesUpTo(subs, req.url, net, k);
    if req.verb == GET {
      var hit := Probe(subs[k], req.url, net).hit;
      var forward := Forward(req, hit.target);
      assert forward == HttpsRequest(GET, Url.Hostname(hit.target.authority), 443, req.url, StripHopHeaders(req.headers), req.body);
    }
  }


  /** The step of a read whose walk stops at an ok probe. */
  lemma FirstOkStep(subs: seq<string>, fs: Store.Fs, req: Request, net: Network, k: nat)
    requires req.url != "" && (req.verb == GET || req.verb == HEAD)
    requires k < |subs| && Probe(subs[k], req.url, net).Hit?
    requires forall j :: 0 <= j < k ==> Probe(subs[j], req.url, net).Passed?
    ensures var hit := Probe(subs[k], req.url, net).hit;
      var probes := Substituters.Contacts(subs[..k + 1], Caller(req.url));
      Respond(subs, fs, req, net)
        == if req.verb == HEAD then Step(Answered(Reply(hit.status, map[], NoBody)), probes, fs)
           else Step(Answered(Relay(net(Forward(req, hit.target)))), probes + [Forward(req, hit.target)], fs)
  {
    WalkStops(subs, req.url, net, k);
    assert Respond(subs, fs, req, net) == Read(subs, fs, req, net);
  }

  /** The probes of a walk that reaches a substituter whose probe does not
      throw: one `fetch` per substituter, in order. */
  lemma ProbesUpTo(subs: seq<string>, url: string, net: Network, k: nat)
    requires k < |subs| && !Probe(subs[k], url, net).Throws?
    requires forall j :: 0 <= j < k ==> Probe(subs[j], url, net).Passed?
    ensures |Substituters.Contacts(subs[..k + 1], Caller(url))| == k + 1
    ensures forall j :: 0 <= j <= k ==>
              (Url.Resolve(url, subs[j]).Some?
               && Substituters.Contacts(subs[..k + 1], Caller(url))[j] == Fetch(Url.Resolve(url, subs[j]).value))
  {
    forall j | 0 <= j <= k
      ensures Url.Resolve(url, subs[j]).Some?
    {
      ResolvedUnlessThrows(subs[j], url, net);
    }
    ContactsOfResolved(subs, url, k + 1);
  }

  /** A substituter that is not a valid base URL, or a `fetch` that fails,
      ends the request with an escaped error: the substituters after it are
      never tried and the store is not consulted. */
  lemma ProbeFailureEscapes(subs: seq<string>, fs: Store.Fs, req: Request, net: Network, k: nat)
    requires req.url != "" && (req.verb == GET || req.verb == HEAD)
    requires k < |subs|
    requires Url.Resolve(req.url, subs[k]).None? || net(Fetch(Url.Resolve(req.url, subs[k]).value)).NetError?
    requires forall j :: 0 <= j < k ==> Probe(subs[j], req.url, net).Passed?
    ensures Respond(subs, fs, req, net).outcome == Escaped
    ensures Respond(subs, fs, req, net).fs == fs
    ensures |Respond(subs, fs, req, net).calls| == k + (if Url.Resolve(req.url, subs[k]).Some? then 1 else 0)
  {
    ThrowsWhen(subs[k], req.url, net);
    WalkStops(subs, req.url, net, k);
    ContactsOfResolved(subs, req.url, k);
  }

  /** When no substituter has the path the request is served from the
      store: 404 "Not Found" exactly when nothing exists at the joined
      path, the file's bytes with status 200 when a file does. */
  lemma FallbackToStore(subs: seq<string>, fs: Store.Fs, req: Request, net: Network)
    requires req.url != "" && (req.verb == GET || req.verb == HEAD)
    requires forall j :: 0 <= j < |subs| ==> Probe(subs[j], req.url, net).Passed?
    ensures var step := Respond(subs, fs, req, net);
      var path := NodePath.Join(Root, req.url);
      && step.fs == fs
      && |step.calls| == |subs|
      && (forall j :: 0 <= j < |subs| ==>
            Url.Resolve(req.url, subs[j]).Some? && step.calls[j] == Fetch(Url.Resolve(req.url, subs[j]).value))
      && (step.outcome == Answered(PlainText(404, "Not Found")) <==> !Store.Exists(fs, path))
      && (path in fs.files ==> step.outcome == Answered(Reply(200, FileHeaders(MimeTypes, path), Bytes(fs.files[path]))))
  {
    WalkExhausted(subs, req.url, net);
    ContactsOfResolved(subs, req.url, |subs|);
    assert subs[..|subs|] == subs;
  }

  /** Substituters after the one that decides play no part: a list that
      agrees with `subs` up to it gives the same step, and so does any
      store. */
  lemma LaterSubstitutersIgnored(subs: seq<string>, other: seq<string>, fs: Store.Fs, fs': Store.Fs, req: Request, net: Network, k: nat)
    requires req.url != "" && (req.verb == GET || req.verb == HEAD)
    requires k < |subs| && !Probe(subs[k], req.url, net).Passed?
    requires forall j :: 0 <= j < k ==> Probe(subs[j], req.url, net).Passed?
    requires k < |other| && other[..k + 1] == subs[..k + 1]
    ensures Respond(other, fs', req, net).outcome == Respond(subs, fs, req, net).outcome
    ensures Respond(other, fs', req, net).calls == Respond(subs, fs, req, net).calls
  {
    assert other[k] == subs[k] && other[..k] == subs[..k] by {
      assert other[k] == other[..k + 1][k];
      assert subs[k] == subs[..k + 1][k];
      assert other[..k] == other[..k + 1][..k];
      assert subs[..k] == subs[..k + 1][..k];
    }
    forall j | 0 <= j < k
      ensures Probe(other[j], req.url, net).Passed?
    {
      assert other[j] == other[..k][j];
      assert subs[j] == subs[..k][j];
    }
    WalkStops(subs, req.url, net, k);
    WalkStops(other, req.url, net, k);
    SameWalkSameRead(subs, other, fs, fs', req, net);
  }

  /** Two lists on which the walk stops at the same place after the same
      calls give the same reply, whatever the stores. */
  lemma SameWalkSameRead(subs: seq<string>, other: seq<string>, fs: Store.Fs, fs': Store.Fs, req: Request, net: Network)
    requires req.url != "" && (req.verb == GET || req.verb == HEAD)
    requires Substituters.Scan(other, Prober(req.url, net)) == Substituters.Scan(subs, Prober(req.url, net))
    requires !Substituters.Scan(subs, Prober(req.url, net)).Exhausted?
    requires Substituters.ScanContacts(other, Prober(req.url, net), Caller(req.url))
          == Substituters.ScanContacts(subs, Prober(req.url, net), Caller(req.url))
    ensures Respond(other, fs', req, net).outcome == Respond(subs, fs, req, net).outcome
    ensures Respond(other, fs', req, net).calls == Respond(subs, fs, req, net).calls
  {
    assert Respond(other, fs', req, net) == Read(other, fs', req, net);
    assert Respond(subs, fs, req, net) == Read(subs, fs, req, net);
  }

  /** A request is left without a reply exactly when it has no URL or its
      method is none of GET, HEAD and PUT; only a PUT changes the store. */
  lemma WhenUnanswered(subs: seq<string>, fs: Store.Fs, req: Request, net: Network)
    ensures Respond(subs, fs, req, net).outcome.Unanswered?
        <==> req.url == "" || !(req.verb == GET || req.verb == HEAD || req.verb == PUT)
    ensures Respond(subs, fs, req, net).outcome.Unanswered? ==> Respond(subs, fs, req, net).calls == []
    ensures Respond(subs, fs, req, net).fs != fs ==> req.verb == PUT
  {
  }

  /** The ".nar.xz" entry of the table is never used: an extension holds one
      dot, so nothing is ever served as "application/x-nix-nar+x-xz". */
  lemma NarXzNeverServed(url: string)
    ensures ContentType(MimeTypes, NodePath.Ext(NodePath.Join(Root, url))) != "application/x-nix-nar+x-xz"
  {
    var ext := NodePath.Ext(NodePath.Join(Root, url));
    NodePath.ExtHasOneDot(NodePath.Join(Root, url), ".nar.xz");
    OnlyNarXzKey(ext);
  }

  /** Only the ".nar.xz" key maps to the compressed-archive type (the
      other values all have a different length). */
  lemma OnlyNarXzKey(ext: string)
    requires ext != ".nar.xz"
    ensures ContentType(MimeTypes, ext) != "application/x-nix-nar+x-xz"
  {
    if ext in MimeTypes {
      assert |MimeTypes[ext]| != 26;
    }
  }

  /** A compressed archive "<stem>.nar.xz" falls through to the default
      "application/octet-stream". */
  lemma NarXzServedAsOctetStream(stem: string)
    requires '/' !in stem
    ensures ContentType(MimeTypes, NodePath.Ext(NodePath.Join(Root, "/" + stem + ".nar.xz"))) == "application/octet-stream"
  {
    var name := NarXzName(stem);
    NodePath.JoinName(Root, name);
    XzExtension(name);
    XzNotInTable();
  }

  lemma XzNotInTable()
    ensures ".xz" !in MimeTypes
  {
  }

  /** The file name of a compressed archive: no slash, ending in ".xz". */
  lemma NarXzName(stem: string) returns (name: string)
    requires '/' !in stem
    ensures name == stem + ".nar.xz" && "/" + stem + ".nar.xz" == "/" + name
    ensures name != [] && '/' !in name
    ensures |name| >= 3 && name[|name| - 3..] == ".xz" && name != ".xz"
  {
    name := stem + ".nar.xz";
    assert forall c :: c in name ==> c in stem || c in ".nar.xz";
  }

  lemma XzExtension(name: string)
    requires |name| >= 3 && name[|name| - 3..] == ".xz" && name != ".xz"
    ensures NodePath.ExtOf(name) == ".xz"
  {
    var n := |name|;
    assert name[n - 1] == 'z' && name[n - 2] == 'x' && name[n - 3] == '.';
    assert NodePath.LastDot(name[..n - 1][..n - 2]) == Some(n - 3);
    assert NodePath.LastDot(name[..n - 1]) == Some(n - 3);
    assert NodePath.LastDot(name) == Some(n - 3);
  }

  /** The table's type for ".narinfo". */
  lemma NarinfoType()
    ensures ContentType(MimeTypes, "." + "narinfo") == "application/x-nix-narinfo"
  {
    assert "." + "narinfo" == ".narinfo";
  }

  /** The headers a stored "<stem>.narinfo" is served with. */
  lemma NarinfoHeaders(stem: string)
    requires stem != [] && '/' !in stem
    ensures var name := stem + "." + "narinfo";
      FileHeaders(MimeTypes, NodePath.Join(Root, "/" + name)) == map[
        "Content-Type" := "application/x-nix-narinfo",
        "Content-Disposition" := "attachment; filename=\"" + name + "\""]
  {
    assert |stem + "." + "narinfo"| > 2;
    DottedFileHeaders(MimeTypes, stem, "narinfo");
    NarinfoType();
  }

  /** A stored "<stem>.narinfo" that no substituter has is served with
      status 200, the narinfo type, its own file name and its bytes. */
  lemma NarinfoServed(subs: seq<string>, fs: Store.Fs, req: Request, net: Network, stem: string)
    requires stem != [] && '/' !in stem
    requires req.url == "/" + stem + ".narinfo" && (req.verb == GET || req.verb == HEAD)
    requires forall j :: 0 <= j < |subs| ==> Probe(subs[j], req.url, net).Passed?
    requires NodePath.Join(Root, req.url) in fs.files
    ensures var name := stem + ".narinfo";
      Respond(subs, fs, req, net).outcome == Answered(Reply(200, map[
        "Content-Type" := "application/x-nix-narinfo",
        "Content-Disposition" := "attachment; filename=\"" + name + "\""],
        Bytes(fs.files[NodePath.Join(Root, req.url)])))
  {
    NarinfoName(stem);
    NarinfoHeaders(stem);
    WalkExhausted(subs, req.url, net);
    assert Respond(subs, fs, req, net) == Read(subs, fs, req, net);
  }

  /** A successful upload is what a later read serves, when no substituter
      has the path: status 200, the file headers, the uploaded bytes. */
  lemma PutThenGet(subs: seq<string>, fs: Store.Fs, put: Request, get: Request, net: Network)
    requires put.verb == PUT && put.url != ""
    requires Put(fs, put).outcome.Answered?
    requires get.url == put.url && (get.verb == GET || get.verb == HEAD)
    requires forall j :: 0 <= j < |subs| ==> Probe(subs[j], get.url, net).Passed?
    ensures Respond(subs, fs, put, net).outcome == Answered(PlainText(201, "Created"))
    ensures var path := NodePath.Join(Root, put.url);
      Respond(subs, Respond(subs, fs, put, net).fs, get, net).outcome
        == Answered(Reply(200, FileHeaders(MimeTypes, path), Bytes(put.body)))
  {
    FallbackToStore(subs, Put(fs, put).fs, get, net);
  }

  /** An upload touches no file but the one at the joined path. */
  lemma PutKeepsOtherFiles(fs: Store.Fs, put: Request, path: string)
    requires path != NodePath.Join(Root, put.url)
    ensures var after := Put(fs, put).fs;
      (path in after.files <==> path in fs.files) && (path in fs.files ==> after.files[path] == fs.files[path])
  {
  }

  /** So an upload leaves the file of every other normalised request path as
      it was. */
  lemma PutKeepsOtherRequests(fs: Store.Fs, put: Request, url: string)
    requires NodePath.Normalised(put.url) && NodePath.Normalised(url) && url != put.url
    ensures var path := NodePath.Join(Root, url);
      var after := Put(fs, put).fs;
      (path in after.files <==> path in fs.files) && (path in fs.files ==> after.files[path] == fs.files[path])
  {
    var path := NodePath.Join(Root, url);
    if path == NodePath.Join(Root, put.url) {
      NodePath.JoinInjective(Root, url, put.url);
    }
    PutKeepsOtherFiles(fs, put, path);
  }
}
