/** The proxy as shipped in dist/proxy.js: the substituter list starts
    empty and is replaced by a `POST /substituters`; HEAD and GET ask each
    substituter in turn with an `https.request` of the same method and relay
    the first answer whose status is set, non-zero and at most 299; failing
    that they fall back to the local store; PUT stores the request body.
    Everything the handler throws, including a failed probe, is caught and
    answered with 500. */
module BuiltProxy {
  import opened Wrappers
  import opened Http
  import Store
  import NodePath
  import Url
  import Js
  import Substituters

  /** The suffix table of dist/proxy.js. */
  const MimeTypes: map<string, string> := map[
    ".nar" := "application/x-nix-nar",
    ".nar.xz" := "application/x-xz",
    ".nar.zst" := "application/zstd",
    ".narinfo" := "application/x-nix-narinfo"
  ]

  /** What `execPromise("nix config show substituters")` settles to: its
      standard output, or a rejection (the command is missing or exits
      with a non-zero status). */
  datatype ConfigRun = Stdout(text: string) | ExecFailed

  /** `!statusCode || statusCode > 299` rejects; everything else is a hit. */
  predicate IsHit(status: Option<int>) {
    status.Some? && status.value != 0 && status.value <= 299
  }

  /** The request sent to a substituter: its host name, port 443, the
      client's path and method, the client's headers without `host` and
      `referer`, and no body (`req.end()` is called at once). */
  function Upstream(req: Request, target: Url.Url): Call
  {
    HttpsRequest(req.verb, Url.Hostname(target.authority), 443, req.url, StripHopHeaders(req.headers), [])
  }

  /** A substituter's answer that the proxy passes on. */
  datatype Relayed = Relayed(status: int, headers: Headers, body: seq<Byte>)

  /** Asking one substituter: `new URL(req.url, substituter)` (which may
      throw), then `requestPromise` (which rejects on an `error` event or
      after the ten-second timeout). */
  function Probe(sub: string, req: Request, net: Network): Substituters.Probe<Relayed>
  {
    match Url.Resolve(req.url, sub)
    case None => Substituters.Throws
    case Some(u) =>
      match net(Upstream(req, u))
      case NetError => Substituters.Throws
      case Response(status, headers, body) =>
        if IsHit(status) then Substituters.Hit(Relayed(status.value, headers, body)) else Substituters.Passed
  }

  function Prober(req: Request, net: Network): string -> Substituters.Probe<Relayed>
  {
    sub => Probe(sub, req, net)
  }

  /** The calls that asking one substituter makes. */
  function ProbeCalls(sub: string, req: Request): seq<Call>
  {
    match Url.Resolve(req.url, sub)
    case None => []
    case Some(u) => [Upstream(req, u)]
  }

  function Caller(req: Request): string -> seq<Call>
  {
    sub => ProbeCalls(sub, req)
  }

  /** A hit passed on: its status and headers, and for a GET its body. */
  function Served(hit: Relayed, verb: Method): Reply
  {
    Reply(hit.status, hit.headers, if verb == HEAD then NoBody else Bytes(hit.body))
  }

  /** The reply of the `catch` block. */
  const InternalError: Reply := PlainText(500, "internal server error")

  /** The local branch: a HEAD only says whether something exists at the
      path; a GET serves it with the file headers. */
  function Local(fs: Store.Fs, req: Request): Reply
    requires req.verb == GET || req.verb == HEAD
  {
    var path := NodePath.Join(Root, req.url);
    if req.verb == HEAD then
      if Store.Exists(fs, path) then Reply(200, map[], NoBody) else PlainText(404, "not found")
    else ServeFile(fs, path, MimeTypes, "not found", "error streaming file")
  }

  /** A HEAD or GET: the specification of `Server.ResolveRead`. */
  function Read(subs: seq<string>, fs: Store.Fs, req: Request, net: Network): Step
    requires req.verb == GET || req.verb == HEAD
  {
    var calls := Substituters.ScanContacts(subs, Prober(req, net), Caller(req));
    match Substituters.Scan(subs, Prober(req, net))
    case Aborted(_) => Step(Answered(InternalError), calls, fs)
    case Found(_, hit) => Step(Answered(Served(hit, req.verb)), calls, fs)
    case Exhausted => Step(Answered(Local(fs, req)), calls, fs)
  }

  /** A PUT: the specification of `Server.Save`. A failing `mkdirSync` is
      caught (500); a failing write stream emits an `error` event that
      nobody listens to. */
  function Put(fs: Store.Fs, req: Request): Step
  {
    match Store.Upload(fs, NodePath.Join(Root, req.url), req.body)
    case MkdirFailed => Step(Answered(InternalError), [], fs)
    case WriteFailed(after) => Step(Escaped, [], after)
    case Written(after) => Step(Answered(PlainText(201, "created")), [], after)
  }

  /** A handler step together with the substituter list after it. */
  datatype Turn = Turn(step: Step, subs: seq<string>)

  /** A POST: the specification of `Server.Refresh`. */
  function Post(subs: seq<string>, fs: Store.Fs, req: Request, config: ConfigRun): Turn
  {
    if req.url != "/substituters" then Turn(Step(Answered(PlainText(404, "not found")), [], fs), subs)
    else
      match config
      case ExecFailed => Turn(Step(Answered(InternalError), [], fs), subs)
      case Stdout(text) =>
        var list := Substituters.Parse(text);
        Turn(Step(Answered(PlainText(200, Js.Stringify(list))), [], fs), list)
  }

  /** The whole handler: the specification of `Server.Handle`. */
  function Respond(subs: seq<string>, fs: Store.Fs, req: Request, net: Network, config: ConfigRun): Turn
  {
    if req.url == "" then Turn(Step(Unanswered, [], fs), subs)
    else
      match req.verb
      case HEAD => Turn(Read(subs, fs, req, net), subs)
      case GET => Turn(Read(subs, fs, req, net), subs)
      case PUT => Turn(Put(fs, req), subs)
      case POST => Post(subs, fs, req, config)
      case _ => Turn(Step(Unanswered, [], fs), subs)
  }

  lemma WalkContinues(subs: seq<string>, req: Request, i: nat)
    requires i < |subs|
    ensures Substituters.Contacts(subs[..i + 1], Caller(req))
         == Substituters.Contacts(subs[..i], Caller(req)) + ProbeCalls(subs[i], req)
  {
    Substituters.ContactsSnoc(subs, Caller(req), i);
  }

  /** Where the walk stops at a substituter that does not pass. */
  lemma WalkStops(subs: seq<string>, req: Request, net: Network, i: nat)
    requires i < |subs| && !Probe(subs[i], req, net).Passed?
    requires forall j :: 0 <= j < i ==> Probe(subs[j], req, net).Passed?
    ensures Substituters.Scan(subs, Prober(req, net))
         == if Probe(subs[i], req, net).Throws? then Substituters.Aborted(i)
            else Substituters.Found(i, Probe(subs[i], req, net).hit)
    ensures Substituters.ScanContacts(subs, Prober(req, net), Caller(req))
         == Substituters.Contacts(subs[..i], Caller(req)) + ProbeCalls(subs[i], req)
  {
    Substituters.WalkStopsAt(subs, Prober(req, net), Caller(req), i);
  }

  /** A walk in which every substituter passes. */
  lemma WalkExhausted(subs: seq<string>, req: Request, net: Network)
    requires forall j :: 0 <= j < |subs| ==> Probe(subs[j], req, net).Passed?
    ensures Substituters.Scan(subs, Prober(req, net)).Exhausted?
    ensures Substituters.ScanContacts(subs, Prober(req, net), Caller(req))
         == Substituters.Contacts(subs, Caller(req))
  {
    Substituters.WalkExhaustedAt(subs, Prober(req, net), Caller(req));
  }

  /** A read whose walk stops at substituter `i`. */
  lemma ReadStops(subs: seq<string>, fs: Store.Fs, req: Request, net: Network, i: nat)
    requires req.verb == GET || req.verb == HEAD
    requires i < |subs| && !Probe(subs[i], req, net).Passed?
    requires forall j :: 0 <= j < i ==> Probe(subs[j], req, net).Passed?
    ensures Read(subs, fs, req, net)
         == Step(if Probe(subs[i], req, net).Throws? then Answered(InternalError)
                 else Answered(Served(Probe(subs[i], req, net).hit, req.verb)),
                 Substituters.Contacts(subs[..i], Caller(req)) + ProbeCalls(subs[i], req), fs)
  {
    WalkStops(subs, req, net, i);
  }

  /** A read in which every substituter passes. */
  lemma ReadFallsBack(subs: seq<string>, fs: Store.Fs, req: Request, net: Network)
    requires req.verb == GET || req.verb == HEAD
    requires forall j :: 0 <= j < |subs| ==> Probe(subs[j], req, net).Passed?
    ensures Read(subs, fs, req, net) == Step(Answered(Local(fs, req)), Substituters.Contacts(subs, Caller(req)), fs)
  {
    WalkExhausted(subs, req, net);
  }

  /** One turn of the walk: `new URL(req.url, substituter)`, then the
      upstream request and the test of its status. */
  method Ask(sub: string, req: Request, net: Network) returns (probe: Substituters.Probe<Relayed>, made: seq<Call>)
    ensures probe == Probe(sub, req, net) && made == ProbeCalls(sub, req)
  {
    var target := Url.Resolve(req.url, sub);
    if target.None? {
      return Substituters.Throws, [];
    }
    var upstream := HttpsRequest(req.verb, Url.Hostname(target.value.authority), 443, req.url,
                                 StripHopHeaders(req.headers), []);
    made := [upstream];
    var answer := net(upstream);
    if answer.NetError? {
      probe := Substituters.Throws;
    } else if IsHit(answer.status) {
      probe := Substituters.Hit(Relayed(answer.status.value, answer.headers, answer.body));
    } else {
      probe := Substituters.Passed;
    }
  }

  class Server {
    /** `let substituters = []`, reassigned by a refresh. */
    var substituters: seq<string>
    /** The store under `Root`. */
    var fs: Store.Fs

    ghost predicate Valid()
      reads this
    {
      Store.Valid(fs)
    }

    /** Startup: no substituters until the first refresh. */
    constructor (initial: Store.Fs)
      requires Store.Valid(initial)
      ensures Valid()
      ensures substituters == [] && fs == initial
    {
      substituters := [];
      fs := initial;
    }

    /** The `for (const substituter of substituters)` loops of HEAD and
        GET: ask each substituter in turn until one answers with a hit or
        a step throws. */
    method Walk(req: Request, net: Network) returns (scanned: Substituters.Scanned<Relayed>, calls: seq<Call>)
      ensures scanned == Substituters.Scan(substituters, Prober(req, net))
      ensures calls == Substituters.ScanContacts(substituters, Prober(req, net), Caller(req))
    {
      calls := [];
      var i := 0;
      assert substituters[..0] == [];
      while i < |substituters|
        invariant 0 <= i <= |substituters|
        invariant forall j :: 0 <= j < i ==> Probe(substituters[j], req, net).Passed?
        invariant calls == Substituters.Contacts(substituters[..i], Caller(req))
      {
        var probe, made := Ask(substituters[i], req, net);
        calls := calls + made;
        match probe {
          case Throws =>
            WalkStops(substituters, req, net, i);
            return Substituters.Aborted(i), calls;
          case Hit(hit) =>
            WalkStops(substituters, req, net, i);
            return Substituters.Found(i, hit), calls;
          case Passed =>
        }
        assert forall j :: 0 <= j < i + 1 ==> Probe(substituters[j], req, net).Passed?;
        WalkContinues(substituters, req, i);
        assert calls == Substituters.Contacts(substituters[..i + 1], Caller(req));
        i := i + 1;
      }
      WalkExhausted(substituters, req, net);
      scanned := Substituters.Exhausted;
    }

    /** HEAD and GET: the walk, then the reply it decides or the local
        fallback. */
    method ResolveRead(req: Request, net: Network) returns (out: Outcome, calls: seq<Call>)
      requires req.verb == GET || req.verb == HEAD
      ensures Step(out, calls, fs) == Read(substituters, fs, req, net)
    {
      var scanned;
      scanned, calls := Walk(req, net);
      match scanned {
        case Aborted(_) => out := Answered(InternalError);
        case Found(_, hit) => out := Answered(Served(hit, req.verb));
        case Exhausted => out := Answered(Local(fs, req));
      }
    }

    /** The PUT branch. */
    method Save(req: Request) returns (out: Outcome)
      requires Valid()
      modifies this
      ensures Valid()
      ensures substituters == old(substituters)
      ensures Step(out, [], fs) == Put(old(fs), req)
    {
      var path := NodePath.Join(Root, req.url);
      var dir := NodePath.Dirname(path);
      if !Store.Exists(fs, dir) {
        var made := Store.MakeDirs(fs, dir);
        if made.Err? {
          out := Answered(InternalError);
          return;
        }
        fs := made.value;
      }
      var written := Store.WriteFile(fs, path, req.body);
      if written.Err? {
        out := Escaped;
        return;
      }
      fs := written.value;
      out := Answered(PlainText(201, "created"));
    }

    /** The POST branch: reload the list when the path is `/substituters`. */
    method Refresh(req: Request, config: ConfigRun) returns (out: Outcome)
      modifies this
      ensures fs == old(fs)
      ensures Turn(Step(out, [], fs), substituters) == Post(old(substituters), old(fs), req, config)
    {
      if req.url != "/substituters" {
        return Answered(PlainText(404, "not found"));
      }
      if config.ExecFailed? {
        return Answered(InternalError);
      }
      substituters := Substituters.Parse(config.text);
      out := Answered(PlainText(200, Js.Stringify(substituters)));
    }

    /** The request handler passed to `createServer`. */
    method Handle(req: Request, net: Network, config: ConfigRun) returns (out: Outcome, calls: seq<Call>)
      requires Valid()
      modifies this
      ensures Valid()
      ensures Turn(Step(out, calls, fs), substituters) == Respond(old(substituters), old(fs), req, net, config)
    {
      if req.url == "" {
        return Unanswered, [];
      }
      match req.verb {
        case HEAD =>
          out, calls := ResolveRead(req, net);
        case GET =>
          out, calls := ResolveRead(req, net);
        case PUT =>
          out := Save(req);
          calls := [];
        case POST =>
          out := Refresh(req, config);
          calls := [];
        case _ =>
          out, calls := Unanswered, [];
      }
    }
  }

  /** A probe hits only with a set, non-zero status of at most 299, from the URL
      the substituter resolves the path to. */
  lemma HitOf(sub: string, req: Request, net: Network)
    requires Probe(sub, req, net).Hit?
    ensures Url.Resolve(req.url, sub).Some?
    ensures var hit := Probe(sub, req, net).hit;
      var answer := net(Upstream(req, Url.Resolve(req.url, sub).value));
      && hit.status != 0 && hit.status <= 299
      && answer == Response(Some(hit.status), hit.headers, hit.body)
  {
  }

  /** Conversely, every answer whose status is set, not 0 and at most 299
      is a hit, passed on as it came: there is no lower bound. */
  lemma HitWhen(sub: string, req: Request, net: Network, u: Url.Url, status: int, headers: Headers, body: seq<Byte>)
    requires Url.Resolve(req.url, sub) == Some(u)
    requires net(Upstream(req, u)) == Response(Some(status), headers, body)
    requires status != 0 && status <= 299
    ensures Probe(sub, req, net) == Substituters.Hit(Relayed(status, headers, body))
  {
  }

  /** An informational 100 is passed on as a hit. */
  lemma InformationalStatusHits(sub: string, req: Request, net: Network, u: Url.Url, headers: Headers, body: seq<Byte>)
    requires Url.Resolve(req.url, sub) == Some(u)
    requires net(Upstream(req, u)) == Response(Some(100), headers, body)
    ensures Probe(sub, req, net) == Substituters.Hit(Relayed(100, headers, body))
  {
    HitWhen(sub, req, net, u, 100, headers, body);
  }

  /** A probe throws exactly when `new URL` rejects the substituter as a
      base or the request to the resolved URL fails or times out. */
  lemma ThrowsWhen(sub: string, req: Request, net: Network)
    ensures Probe(sub, req, net).Throws?
        <==> Url.Resolve(req.url, sub).None? || net(Upstream(req, Url.Resolve(req.url, sub).value)).NetError?
  {
  }

  /** A probe passes exactly when the resolved URL answers with a status
      that is missing, 0 or above 299. */
  lemma PassesWhen(sub: string, req: Request, net: Network)
    ensures Probe(sub, req, net).Passed?
        <==> && Url.Resolve(req.url, sub).Some?
             && net(Upstream(req, Url.Resolve(req.url, sub).value)).Response?
             && !IsHit(net(Upstream(req, Url.Resolve(req.url, sub).value)).status)
  {
  }

  lemma ProbeCallsOf(sub: string, req: Request)
    requires Url.Resolve(req.url, sub).Some?
    ensures ProbeCalls(sub, req) == [Upstream(req, Url.Resolve(req.url, sub).value)]
  {
  }

  /** A probe that does not throw had a URL to ask. */
  lemma ResolvedUnlessThrows(sub: string, req: Request, net: Network)
    ensures Probe(sub, req, net).Throws? || Url.Resolve(req.url, sub).Some?
  {
  }

  /** The requests of a walk over substituters that all resolve: one per
      substituter, in order. */
  lemma ContactsOfResolved(subs: seq<string>, req: Request, n: nat)
    requires n <= |subs|
    requires forall j :: 0 <= j < n ==> Url.Resolve(req.url, subs[j]).Some?
    ensures var calls := Substituters.Contacts(subs[..n], Caller(req));
      |calls| == n && forall j :: 0 <= j < n ==> calls[j] == Upstream(req, Url.Resolve(req.url, subs[j]).value)
  {
    forall j | 0 <= j < n
      ensures Caller(req)(subs[j]) == [Upstream(req, Url.Resolve(req.url, subs[j]).value)]
    {
      ProbeCallsOf(subs[j], req);
    }
    Substituters.ContactsOfSingles(subs, Caller(req), n);
  }

  /** Every substituter a walk reaches without a throw resolved the path. */
  lemma ResolvedUpTo(subs: seq<string>, req: Request, net: Network, k: nat)
    requires k < |subs| && !Probe(subs[k], req, net).Throws?
    requires forall j :: 0 <= j < k ==> Probe(subs[j], req, net).Passed?
    ensures forall j :: 0 <= j <= k ==> Url.Resolve(req.url, subs[j]).Some?
  {
    forall j | 0 <= j < k
      ensures Url.Resolve(req.url, subs[j]).Some?
    {
      ResolvedUnlessThrows(subs[j], req, net);
    }
    ResolvedUnlessThrows(subs[k], req, net);
  }

  /** The first substituter that answers with a set status of at most 299
      answers the client: the same status and headers, and for a GET the
      same body. Each substituter up to it was asked once, in order, with
      the client's method and path and its headers without `host` and
      `referer`; the store was not consulted. */
  lemma FirstHitWins(subs: seq<string>, fs: Store.Fs, req: Request, net: Network, config: ConfigRun, k: nat)
    requires req.url != "" && (req.verb == GET || req.verb == HEAD)
    requires k < |subs| && Probe(subs[k], req, net).Hit?
    requires forall j :: 0 <= j < k ==> Probe(subs[j], req, net).Passed?
    ensures var turn := Respond(subs, fs, req, net, config);
      var hit := Probe(subs[k], req, net).hit;
      && turn.subs == subs && turn.step.fs == fs
      && hit.status != 0 && hit.status <= 299
      && turn.step.outcome == Answered(Reply(hit.status, hit.headers, if req.verb == HEAD then NoBody else Bytes(hit.body)))
      && |turn.step.calls| == k + 1
      && net(turn.step.calls[k]) == Response(Some(hit.status), hit.headers, hit.body)
      && forall j :: 0 <= j <= k ==>
           (Url.Resolve(req.url, subs[j]).Some? && turn.step.calls[j] == Upstream(req, Url.Resolve(req.url, subs[j]).value))
  {
    var calls := Substituters.Contacts(subs[..k + 1], Caller(req));
    HitOf(subs[k], req, net);
    ReadHit(subs, fs, req, net, k);
    ResolvedUpTo(subs, req, net, k);
    HitRequests(subs, req, net, k);
    assert Respond(subs, fs, req, net, config) == Turn(Read(subs, fs, req, net), subs);
  }

  /** A read whose walk stops at a hit: the hit is served and the calls are
      those of the walk up to it. */
  lemma ReadHit(subs: seq<string>, fs: Store.Fs, req: Request, net: Network, k: nat)
    requires req.verb == GET || req.verb == HEAD
    requires k < |subs| && Probe(subs[k], req, net).Hit?
    requires forall j :: 0 <= j < k ==> Probe(subs[j], req, net).Passed?
    ensures Read(subs, fs, req, net)
         == Step(Answered(Served(Probe(subs[k], req, net).hit, req.verb)), Substituters.Contacts(subs[..k + 1], Caller(req)), fs)
  {
    ReadStops(subs, fs, req, net, k);
    WalkContinues(subs, req, k);
  }

  /** The requests of a walk that stops at a hit, when every substituter up
      to it resolved the path: one per substituter, in order, the last one
      answered with the hit. */
  lemma HitRequests(subs: seq<string>, req: Request, net: Network, k: nat)
    requires k < |subs| && Probe(subs[k], req, net).Hit?
    requires forall j :: 0 <= j <= k ==> Url.Resolve(req.url, subs[j]).Some?
    ensures var calls := Substituters.Contacts(subs[..k + 1], Caller(req));
      var hit := Probe(subs[k], req, net).hit;
      && |calls| == k + 1
      && net(calls[k]) == Response(Some(hit.status), hit.headers, hit.body)
      && forall j :: 0 <= j <= k ==>
           (Url.Resolve(req.url, subs[j]).Some? && calls[j] == Upstream(req, Url.Resolve(req.url, subs[j]).value))
  {
    HitOf(subs[k], req, net);
    ContactsOfResolved(subs, req, k + 1);
  }

  /** A substituter that is not a valid base URL, or a request to it that
      fails or times out, ends the request with 500 "internal server error":
      the substituters after it are not asked and the store is not consulted. */
  lemma FailureAnswers500(subs: seq<string>, fs: Store.Fs, req: Request, net: Network, config: ConfigRun, k: nat)
    requires req.url != "" && (req.verb == GET || req.verb == HEAD)
    requires k < |subs|
    requires Url.Resolve(req.url, subs[k]).None? || net(Upstream(req, Url.Resolve(req.url, subs[k]).value)).NetError?
    requires forall j :: 0 <= j < k ==> Probe(subs[j], req, net).Passed?
    ensures var turn := Respond(subs, fs, req, net, config);
      && turn.subs == subs && turn.step.fs == fs
      && turn.step.outcome == Answered(PlainText(500, "internal server error"))
      && |turn.step.calls| == k + (if Url.Resolve(req.url, subs[k]).Some? then 1 else 0)
  {
    ThrowsWhen(subs[k], req, net);
    ReadStops(subs, fs, req, net, k);
    ContactsOfResolved(subs, req, k);
    assert Respond(subs, fs, req, net, config).step == Read(subs, fs, req, net);
  }

  /** When no substituter has the path the request is served from the
      store. A HEAD answers 200 with no headers when something exists at
      the joined path and 404 "not found" otherwise; a GET answers 404
      exactly when nothing exists there and the file's bytes when a file
      does. */
  lemma FallbackToStore(subs: seq<string>, fs: Store.Fs, req: Request, net: Network, config: ConfigRun)
    requires req.url != "" && (req.verb == GET || req.verb == HEAD)
    requires forall j :: 0 <= j < |subs| ==> Probe(subs[j], req, net).Passed?
    ensures var turn := Respond(subs, fs, req, net, config);
      var path := NodePath.Join(Root, req.url);
      && turn.subs == subs && turn.step.fs == fs
      && |turn.step.calls| == |subs|
      && (forall j :: 0 <= j < |subs| ==>
            Url.Resolve(req.url, subs[j]).Some? && turn.step.calls[j] == Upstream(req, Url.Resolve(req.url, subs[j]).value))
      && (turn.step.outcome == Answered(PlainText(404, "not found")) <==> !Store.Exists(fs, path))
      && (req.verb == HEAD && Store.Exists(fs, path) ==> turn.step.outcome == Answered(Reply(200, map[], NoBody)))
      && (req.verb == GET && path in fs.files ==>
            turn.step.outcome == Answered(Reply(200, FileHeaders(MimeTypes, path), Bytes(fs.files[path]))))
  {
    ReadFallsBack(subs, fs, req, net);
    ContactsOfResolved(subs, req, |subs|);
    assert subs[..|subs|] == subs;
    assert Respond(subs, fs, req, net, config).step == Read(subs, fs, req, net);
  }

  /** Until the first refresh the list is empty: every read is served
      from the store without a single outgoing request. */
  lemma LocalUntilRefreshed(fs: Store.Fs, req: Request, net: Network, config: ConfigRun)
    requires req.url != "" && (req.verb == GET || req.verb == HEAD)
    ensures Respond([], fs, req, net, config) == Turn(Step(Answered(Local(fs, req)), [], fs), [])
  {
    ReadFallsBack([], fs, req, net);
  }

  /** A refresh replaces the whole list by the parsed output of the
      command, and its reply is the new list as a JSON array that decodes
      back to it. */
  lemma RefreshReplaces(subs: seq<string>, fs: Store.Fs, req: Request, net: Network, text: string)
    requires req.verb == POST && req.url == "/substituters"
    ensures var turn := Respond(subs, fs, req, net, Stdout(text));
      && turn.subs == Substituters.Parse(text)
      && turn.step == Step(Answered(PlainText(200, Js.Stringify(turn.subs))), [], fs)
      && Js.ParseArray(Js.Stringify(turn.subs)) == Some(turn.subs)
  {
    assert Respond(subs, fs, req, net, Stdout(text)) == Post(subs, fs, req, Stdout(text));
    Js.StringifyRoundTrip(Substituters.Parse(text));
  }

  /** A refresh whose command fails is caught: 500, and the old list
      stays in force. */
  lemma RefreshFailureKeepsList(subs: seq<string>, fs: Store.Fs, req: Request, net: Network)
    requires req.verb == POST && req.url == "/substituters"
    ensures Respond(subs, fs, req, net, ExecFailed) == Turn(Step(Answered(PlainText(500, "internal server error")), [], fs), subs)
  {
  }

  /** A POST to any other path is 404 "not found" and changes nothing. */
  lemma OtherPostNotFound(subs: seq<string>, fs: Store.Fs, req: Request, net: Network, config: ConfigRun)
    requires req.verb == POST && req.url != "" && req.url != "/substituters"
    ensures Respond(subs, fs, req, net, config) == Turn(Step(Answered(PlainText(404, "not found")), [], fs), subs)
  {
  }

  /** An empty configuration still yields one substituter, the empty
      string, which is not a valid base URL: after such a refresh every
      read fails with 500 before any request is sent. */
  lemma EmptyConfigBreaksReads(subs: seq<string>, fs: Store.Fs, post: Request, req: Request, net: Network, config: ConfigRun)
    requires post.verb == POST && post.url == "/substituters"
    requires req.url != "" && (req.verb == GET || req.verb == HEAD)
    ensures var after := Respond(subs, fs, post, net, Stdout("\n")).subs;
      && after == [""]
      && Respond(after, fs, req, net, config) == Turn(Step(Answered(PlainText(500, "internal server error")), [], fs), after)
  {
    Substituters.EmptyOutput();
    Url.InvalidBaseThrows(req.url, "");
    assert Probe([""][0], req, net).Throws?;
    ReadStops([""], fs, req, net, 0);
    assert [""][..0] == [];
  }

  /** Everything the handler throws is caught: only an empty URL, an
      unhandled method or a failing write stream leaves the client without
      an answer; only a PUT changes the store and only a POST the list. */
  lemma WhenUnanswered(subs: seq<string>, fs: Store.Fs, req: Request, net: Network, config: ConfigRun)
    ensures var turn := Respond(subs, fs, req, net, config);
      && (turn.step.outcome.Unanswered? <==> req.url == "" || !(req.verb in {GET, HEAD, PUT, POST}))
      && (turn.step.outcome.Escaped? ==> req.verb == PUT)
      && (turn.step.fs != fs ==> req.verb == PUT)
      && (turn.subs != subs ==> req.verb == POST)
  {
    var turn := Respond(subs, fs, req, net, config);
    if req.url != "" && (req.verb == GET || req.verb == HEAD) {
      assert turn.step == Read(subs, fs, req, net);
    }
  }

  /** The table's type for ".narinfo". */
  lemma NarinfoType()
    ensures ContentType(MimeTypes, "." + "narinfo") == "application/x-nix-narinfo"
  {
    assert "." + "narinfo" == ".narinfo";
  }

  /** The headers a stored "<stem>.narinfo" is served with. */
  lemma NarinfoHeaders(stem: string)
    requires stem != [] && '/' !in stem
    ensures var name := stem + "." + "narinfo";
      FileHeaders(MimeTypes, NodePath.Join(Root, "/" + name)) == map[
        "Content-Type" := "application/x-nix-narinfo",
        "Content-Disposition" := "attachment; filename=\"" + name + "\""]
  {
    assert |stem + "." + "narinfo"| > 2;
    DottedFileHeaders(MimeTypes, stem, "narinfo");
    NarinfoType();
  }

  /** A stored "<stem>.narinfo" that no substituter has is served to a GET
      with status 200, the narinfo type, its own file name and its bytes. */
  lemma NarinfoServed(subs: seq<string>, fs: Store.Fs, req: Request, net: Network, config: ConfigRun, stem: string)
    requires stem != [] && '/' !in stem
    requires req.url == "/" + stem + ".narinfo" && req.verb == GET
    requires forall j :: 0 <= j < |subs| ==> Probe(subs[j], req, net).Passed?
    requires NodePath.Join(Root, req.url) in fs.files
    ensures var name := stem + ".narinfo";
      Respond(subs, fs, req, net, config).step.outcome == Answered(Reply(200, map[
        "Content-Type" := "application/x-nix-narinfo",
        "Content-Disposition" := "attachment; filename=\"" + name + "\""],
        Bytes(fs.files[NodePath.Join(Root, req.url)])))
  {
    NarinfoName(stem);
    NarinfoHeaders(stem);
    ReadFallsBack(subs, fs, req, net);
    assert Respond(subs, fs, req, net, config).step == Read(subs, fs, req, net);
  }

  /** A successful upload is what a later read serves when no substituter
      has the path: 201 "created", then for a GET status 200, the file
      headers and the uploaded bytes. */
  lemma PutThenGet(subs: seq<string>, fs: Store.Fs, put: Request, get: Request, net: Network, config: ConfigRun)
    requires put.verb == PUT && put.url != ""
    requires Store.Upload(fs, NodePath.Join(Root, put.url), put.body).Written?
    requires get.url == put.url && get.verb == GET
    requires forall j :: 0 <= j < |subs| ==> Probe(subs[j], get, net).Passed?
    ensures Respond(subs, fs, put, net, config).step.outcome == Answered(PlainText(201, "created"))
    ensures var path := NodePath.Join(Root, put.url);
      var after := Respond(subs, fs, put, net, config);
      Respond(after.subs, after.step.fs, get, net, config).step.outcome
        == Answered(Reply(200, FileHeaders(MimeTypes, path), Bytes(put.body)))
  {
    var after := Respond(subs, fs, put, net, config);
    assert after == Turn(Put(fs, put), subs);
    FallbackToStore(subs, Put(fs, put).fs, get, net, config);
  }

  /** The two compressed-archive keys of the table are never looked up:
      an extension holds one dot, so nothing is served as
      "application/x-xz" or "application/zstd". */
  lemma CompressedTypesNeverServed(url: string)
    ensures var ext := NodePath.Ext(NodePath.Join(Root, url));
      ContentType(MimeTypes, ext) != "application/x-xz" && ContentType(MimeTypes, ext) != "application/zstd"
  {
    var ext := NodePath.Ext(NodePath.Join(Root, url));
    NodePath.ExtHasOneDot(NodePath.Join(Root, url), ".nar.xz");
    NodePath.ExtHasOneDot(NodePath.Join(Root, url), ".nar.zst");
    OnlyCompressedKeys(ext);
  }

  /** Only the two compressed keys map to the compressed types. */
  lemma OnlyCompressedKeys(ext: string)
    requires ext != ".nar.xz" && ext != ".nar.zst"
    ensures ContentType(MimeTypes, ext) != "application/x-xz" && ContentType(MimeTypes, ext) != "application/zstd"
  {
    if ext in MimeTypes {
      assert ext == ".nar" || ext == ".narinfo";
    }
  }
}
