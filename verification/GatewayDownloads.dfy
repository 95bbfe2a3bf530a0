// One download of the gateway: redirects, robots.txt of every origin on the way, and the byte
// budget they all share.
module GatewayDownloads {
  import opened Prelude
  import opened RobotsOctets
  import opened RobotsGroups
  import opened RobotsFile

  datatype DownloadError =
    | TooManyRedirects
    | RequestTimeout
    | ResponseTooLarge
    | UrlSecurity
    | InvalidUrl
    | UnsafeLimits
    | HttpFailure(status: Option<nat>)

  datatype Result<+T> = Ok(value: T) | Err(error: DownloadError)

  // What the security policy answers: the normalized URL and the addresses to connect to, a
  // refusal, or nothing before the deadline.
  datatype Approved = Approved(value: string, addresses: seq<string>)
  datatype Approval = Granted(approved: Approved) | Refused | NotInTime

  datatype Ending = Complete | Aborted | TimedOut

  // What happens on one connection. A missing or unreadable content-length declares 0.
  datatype Transcript =
    | NoResponse
    | NoAnswerInTime
    | Answer(status: nat, location: Option<string>, declared: nat, chunks: seq<seq<Octet>>, ending: Ending)

  datatype Response = Response(status: nat, location: Option<string>, body: seq<Octet>)

  datatype Hop = Hop(approved: string, response: Response)

  datatype Redirect = Redirect(fromUrl: string, toUrl: string, status: nat, permanent: bool)

  datatype Downloaded = Downloaded(requestedUrl: string, finalUrl: string, status: nat, body: seq<Octet>,
                                   redirectChain: seq<Redirect>)

  // The world outside: policy, network, clock and URL parsing. The first argument counts the
  // interactions so far, so that the same question may be answered differently later.
  datatype Environment = Environment(
    approve: (nat, string) -> Approval,
    throttleExpires: nat -> bool,
    connect: (nat, string, string) -> Transcript,
    pastDeadline: nat -> bool,
    resolve: (string, string) -> Option<string>,
    originOf: string -> string,
    pathnameOf: string -> string,
    searchOf: string -> string,
    robotsUrlOf: string -> string,
    decode: seq<Octet> -> string)

  datatype Options = Options(maxRedirects: nat, maxBytes: nat, respectRobots: bool, userAgent: string)

  /*** Connections and the bytes they cost ***/

  // A connection made: when, for which URL, to which address, and how many bytes were left.
  datatype Connection = Connection(at: nat, url: string, address: string, remaining: nat)

  predicate IsRedirect(status: nat) {
    300 <= status < 400 && status != 304
  }

  predicate IsPermanent(status: nat) {
    status == 301 || status == 308
  }

  predicate IsFinal(status: nat) {
    status == 304 || 200 <= status < 300
  }

  function Concat(chunks: seq<seq<Octet>>): seq<Octet> {
    if chunks == [] then [] else chunks[0] + Concat(chunks[1..])
  }

  // The bytes of the leading chunks that fit.
  function Kept(chunks: seq<seq<Octet>>, remaining: nat): (n: nat)
    ensures n <= remaining
  {
    if chunks == [] || |chunks[0]| > remaining then 0 else |chunks[0]| + Kept(chunks[1..], remaining - |chunks[0]|)
  }

  // What a connection costs, however it ends.
  function BytesKept(t: Transcript, remaining: nat): (n: nat)
    ensures n <= remaining
  {
    if !t.Answer? || IsRedirect(t.status) || t.status == 304 || t.declared > remaining then 0 else Kept(t.chunks, remaining)
  }

  lemma {:induction false} KeptInFull(chunks: seq<seq<Octet>>, remaining: nat)
    ensures |Concat(chunks)| <= remaining ==> Kept(chunks, remaining) == |Concat(chunks)|
    decreases |chunks|
  {
    if chunks != [] && |chunks[0]| <= remaining {
      KeptInFull(chunks[1..], remaining - |chunks[0]|);
    }
  }

  // What one connection comes to when so many bytes may still be accepted.
  function Answered(t: Transcript, remaining: nat): Result<Response> {
    match t
    case NoResponse => Err(HttpFailure(None))
    case NoAnswerInTime => Err(RequestTimeout)
    case Answer(status, location, declared, chunks, ending) =>
      if IsRedirect(status) || status == 304 then Ok(Response(status, location, []))
      else if declared > remaining || |Concat(chunks)| > remaining then Err(ResponseTooLarge)
      else if ending.Complete? then Ok(Response(status, location, Concat(chunks)))
      else if ending.Aborted? then Err(HttpFailure(None))
      else Err(RequestTimeout)
  }

  function TranscriptOf(env: Environment, c: Connection): Transcript {
    env.connect(c.at, c.url, c.address)
  }

  function Cost(env: Environment, c: Connection): (n: nat)
    ensures n <= c.remaining
  {
    BytesKept(TranscriptOf(env, c), c.remaining)
  }

  function CameTo(env: Environment, c: Connection): Result<Response> {
    Answered(TranscriptOf(env, c), c.remaining)
  }

  function TotalCost(env: Environment, cs: seq<Connection>): nat {
    if cs == [] then 0 else TotalCost(env, cs[..|cs| - 1]) + Cost(env, cs[|cs| - 1])
  }

  // Each connection starts with what the ones before it left, and the last leaves `remaining`.
  predicate Charged(env: Environment, cs: seq<Connection>, maxBytes: nat, remaining: nat) {
    if cs == [] then remaining == maxBytes
    else
      var c := cs[|cs| - 1];
      remaining == c.remaining - Cost(env, c) && Charged(env, cs[..|cs| - 1], maxBytes, c.remaining)
  }

  // The bytes accepted over all connections and the bytes left make up the budget.
  lemma {:induction false} BudgetIsShared(env: Environment, cs: seq<Connection>, maxBytes: nat, remaining: nat)
    requires Charged(env, cs, maxBytes, remaining)
    ensures TotalCost(env, cs) + remaining == maxBytes
    decreases |cs|
  {
    if cs != [] {
      BudgetIsShared(env, cs[..|cs| - 1], maxBytes, cs[|cs| - 1].remaining);
    }
  }

  // No two connections are the same interaction.
  predicate Ascending(cs: seq<Connection>, clock: nat) {
    && (forall i :: 0 <= i < |cs| ==> cs[i].at < clock)
    && forall i, j :: 0 <= i < j < |cs| ==> cs[i].at < cs[j].at
  }

  /*** Exchanges ***/

  // One logical exchange: the URL asked for, what was approved for it and when, when its turn came,
  // whether it is a page (robots are enforced) or a robots file, whether the caller's conditional
  // headers were sent, the connections made for it and what they came to.
  datatype Exchange = Exchange(url: string, approval: Approved, approvedAt: nat, throttledAt: nat, isPage: bool,
                               conditional: bool, attempts: seq<Connection>, result: Result<Response>)

  // The attempt failed without an answer, and there was time for another.
  predicate MovesOn(env: Environment, c: Connection) {
    CameTo(env, c) == Err(HttpFailure(None)) && !env.pastDeadline(c.at + 1)
  }

  // The first approved addresses were tried in turn.
  predicate InTurn(approved: Approved, attempts: seq<Connection>) {
    && |attempts| <= |approved.addresses|
    && forall i :: 0 <= i < |attempts| ==> attempts[i].url == approved.value && attempts[i].address == approved.addresses[i]
  }

  // The approved addresses are tried in turn, on after connection failures only, until one answers,
  // the deadline passes or none is left.
  predicate Tried(env: Environment, approved: Approved, attempts: seq<Connection>, result: Result<Response>) {
    && InTurn(approved, attempts)
    && (forall i :: 0 <= i < |attempts| - 1 ==> MovesOn(env, attempts[i]))
    && (if approved.addresses == [] then result == Err(UrlSecurity)
        else
          && attempts != []
          && var last := attempts[|attempts| - 1];
             if CameTo(env, last) != Err(HttpFailure(None)) then result == CameTo(env, last)
             else if env.pastDeadline(last.at + 1) then result == Err(RequestTimeout)
             else |attempts| == |approved.addresses| && result == Err(HttpFailure(None)))
  }

  predicate AllFailed(env: Environment, approved: Approved, attempts: seq<Connection>) {
    InTurn(approved, attempts) && forall i :: 0 <= i < |attempts| ==> MovesOn(env, attempts[i])
  }

  lemma OneMoreAttempt(env: Environment, approved: Approved, attempts: seq<Connection>, c: Connection)
    requires AllFailed(env, approved, attempts) && |attempts| < |approved.addresses|
    requires c.url == approved.value && c.address == approved.addresses[|attempts|]
    ensures CameTo(env, c) != Err(HttpFailure(None)) ==> Tried(env, approved, attempts + [c], CameTo(env, c))
    ensures CameTo(env, c) == Err(HttpFailure(None)) && env.pastDeadline(c.at + 1) ==>
              Tried(env, approved, attempts + [c], Err(RequestTimeout))
    ensures MovesOn(env, c) ==> AllFailed(env, approved, attempts + [c])
    ensures MovesOn(env, c) && |attempts| + 1 == |approved.addresses| ==>
              Tried(env, approved, attempts + [c], Err(HttpFailure(None)))
  {
    hide CameTo;
    var more := attempts + [c];
    assert forall i :: 0 <= i < |attempts| ==> more[i] == attempts[i];
  }

  predicate ExchangeSound(env: Environment, e: Exchange) {
    && env.approve(e.approvedAt, e.url) == Granted(e.approval)
    && e.approvedAt < e.throttledAt && !env.throttleExpires(e.throttledAt)
    && (e.attempts != [] ==> e.attempts[0].at > e.throttledAt)
    && Tried(env, e.approval, e.attempts, e.result)
    && (e.conditional ==> e.isPage)
  }

  function Connections(log: seq<Exchange>): seq<Connection> {
    if log == [] then [] else Connections(log[..|log| - 1]) + log[|log| - 1].attempts
  }

  // The exchanges for pages, and those for robots files.
  function OfKind(log: seq<Exchange>, isPage: bool): seq<Exchange> {
    if log == [] then []
    else
      var before, e := OfKind(log[..|log| - 1], isPage), log[|log| - 1];
      if e.isPage == isPage then before + [e] else before
  }

  lemma {:induction false} OfOneKind(log: seq<Exchange>, hops: seq<Exchange>, isPage: bool)
    requires forall i :: 0 <= i < |hops| ==> hops[i].isPage == isPage
    ensures OfKind(log + hops, isPage) == OfKind(log, isPage) + hops
    ensures OfKind(log + hops, !isPage) == OfKind(log, !isPage)
    decreases |hops|
  {
    if hops == [] {
      assert log + hops == log;
    } else {
      var last := |hops| - 1;
      assert (log + hops)[..|log + hops| - 1] == log + hops[..last];
      OfOneKind(log, hops[..last], isPage);
      assert hops == hops[..last] + [hops[last]];
    }
  }

  /*** Chains of redirects ***/

  // Where the exchange leads: the server's location, resolved against the approved URL.
  function Leads(env: Environment, e: Exchange): Option<string> {
    if e.result.Ok? && IsRedirect(e.result.value.status) && e.result.value.location.Some?
    then env.resolve(e.result.value.location.value, e.approval.value) else None
  }

  // The hops start at a URL, and each leads to the next.
  predicate ChainOf(env: Environment, hops: seq<Exchange>, first: string) {
    && (hops != [] ==> hops[0].url == first)
    && forall i :: 0 <= i < |hops| - 1 ==> Leads(env, hops[i]) == Some(hops[i + 1].url)
  }

  // The URL a chain goes on with.
  function NextUrl(env: Environment, hops: seq<Exchange>, first: string): Option<string> {
    if hops == [] then Some(first) else Leads(env, hops[|hops| - 1])
  }

  // The chain ended in an answer, and this is what is returned of it.
  predicate Completed(env: Environment, hops: seq<Exchange>, first: string, tail: seq<Redirect>, d: Downloaded) {
    && ChainOf(env, hops, first) && |hops| == |tail| + 1
    && (forall i :: 0 <= i < |tail| ==>
          && Leads(env, hops[i]).Some?
          && tail[i].fromUrl == hops[i].approval.value && tail[i].toUrl == Leads(env, hops[i]).value
          && tail[i].status == hops[i].result.value.status
          && (tail[i].permanent <==> tail[i].status in {301, 308}))
    && var last := hops[|tail|];
       && last.result.Ok? && IsFinal(last.result.value.status)
       && d.finalUrl == last.approval.value && d.status == last.result.value.status && d.body == last.result.value.body
  }

  function ApprovalError(approval: Approval): DownloadError
    requires !approval.Granted?
  {
    if approval.Refused? then UrlSecurity else RequestTimeout
  }

  // Why a chain that started after `redirects` redirects ended with this error, robots aside.
  ghost predicate Explained(env: Environment, hops: seq<Exchange>, first: string, redirects: nat, maxRedirects: nat, error: DownloadError,
                            from: nat, to: nat)
  {
    || (hops != [] && hops[|hops| - 1].result == Err(error) && (error.HttpFailure? ==> error.status.None?))
    || (hops != [] && hops[|hops| - 1].result.Ok?
        && var response := hops[|hops| - 1].result.value;
           || (error == HttpFailure(Some(response.status)) && !IsFinal(response.status)
               && !(IsRedirect(response.status) && response.location.Some?))
           || (error == InvalidUrl && IsRedirect(response.status) && response.location.Some? && Leads(env, hops[|hops| - 1]).None?))
    || (NextUrl(env, hops, first).Some?
        && (|| (error == TooManyRedirects && redirects + |hops| > maxRedirects)
            || (error == RequestTimeout && Turn(hops, from) + 1 < to && env.throttleExpires(to - 1))
            || (to == Turn(hops, from) + 1 && NotApproved(env, Turn(hops, from), NextUrl(env, hops, first).value, error))))
  }

  // When the exchange was over, and when the turn of the hop after these came.
  function EndOf(e: Exchange): nat {
    if e.attempts == [] then e.throttledAt + 1 else e.attempts[|e.attempts| - 1].at + 1
  }

  function Turn(hops: seq<Exchange>, from: nat): nat {
    if hops == [] then from else EndOf(hops[|hops| - 1])
  }

  predicate NotApproved(env: Environment, t: nat, url: string, error: DownloadError) {
    !env.approve(t, url).Granted? && error == ApprovalError(env.approve(t, url))
  }

  /*** robots.txt ***/

  // The robots file of an origin was asked for in these exchanges, the first of which has index `start` in the log.
  datatype Fetch = Fetch(origin: string, start: nat, hops: seq<Exchange>)

  function RobotsPath(env: Environment, url: string): string {
    (if env.pathnameOf(url) == "" then "/" else env.pathnameOf(url)) + env.searchOf(url)
  }

  ghost predicate PathPermitted(env: Environment, options: Options, rules: string, url: string) {
    FilePermits(Directives(rules), ProductToken(options.userAgent), RobotsPath(env, url))
  }

  // The origin's robots file was answered: found, or not there.
  predicate FileAnswered(env: Environment, f: Fetch) {
    && f.hops != [] && f.hops[|f.hops| - 1].result.Ok?
    && var status := f.hops[|f.hops| - 1].result.value.status; status == 404 || IsFinal(status)
  }

  // What it said; a file that is not there has no rules.
  function RulesIn(env: Environment, f: Fetch): Option<string>
    requires FileAnswered(env, f)
  {
    var response := f.hops[|f.hops| - 1].result.value;
    if response.status == 404 then None else Some(env.decode(response.body))
  }

  predicate NeedsRobots(env: Environment, options: Options, url: string, isPage: bool) {
    isPage && options.respectRobots && env.pathnameOf(url) != "/robots.txt"
  }

  ghost predicate Permits(env: Environment, options: Options, f: Fetch, url: string) {
    f.origin == env.originOf(url) && FileAnswered(env, f)
    && (RulesIn(env, f).Some? ==> PathPermitted(env, options, RulesIn(env, f).value, url))
  }

  // A page was asked for only after the answered robots file of its origin permitted it.
  ghost predicate PermittedAt(env: Environment, options: Options, log: seq<Exchange>, fetches: seq<Fetch>, k: nat)
    requires k < |log|
  {
    NeedsRobots(env, options, log[k].approval.value, log[k].isPage) ==>
      exists j :: 0 <= j < |fetches| && fetches[j].start + |fetches[j].hops| <= k
                  && Permits(env, options, fetches[j], log[k].approval.value)
  }

  // The fetch is part of the log, starts at the origin's robots URL and follows the servers' redirects.
  predicate FetchSound(env: Environment, log: seq<Exchange>, f: Fetch) {
    && f.start + |f.hops| <= |log| && log[f.start..f.start + |f.hops|] == f.hops
    && ChainOf(env, f.hops, env.robotsUrlOf(f.origin))
  }

  function Fetched(fetches: seq<Fetch>): seq<Exchange> {
    if fetches == [] then [] else Fetched(fetches[..|fetches| - 1]) + fetches[|fetches| - 1].hops
  }

  predicate DistinctOrigins(fetches: seq<Fetch>) {
    forall i, j :: 0 <= i < j < |fetches| ==> fetches[i].origin != fetches[j].origin
  }

  /*** Bookkeeping ***/

  lemma OneMoreConnection(env: Environment, cs: seq<Connection>, c: Connection, maxBytes: nat)
    requires Charged(env, cs, maxBytes, c.remaining)
    ensures Charged(env, cs + [c], maxBytes, c.remaining - Cost(env, c))
  {
    assert (cs + [c])[..|cs|] == cs;
  }

  lemma NoHops(env: Environment, log: seq<Exchange>, first: string)
    ensures log + [] == log && OfKind(log, true) == OfKind(log, true) + [] && ChainOf(env, [], first)
  {
  }

  lemma OneMoreExchange(log: seq<Exchange>, e: Exchange)
    ensures Connections(log + [e]) == Connections(log) + e.attempts
    ensures OfKind(log + [e], true) == OfKind(log, true) + (if e.isPage then [e] else [])
    ensures OfKind(log + [e], false) == OfKind(log, false) + (if e.isPage then [] else [e])
  {
    assert (log + [e])[..|log|] == log;
  }

  // Hops in front of the hops that follow them.
  lemma HopsInFront(env: Environment, hop: seq<Exchange>, later: seq<Exchange>, first: string, target: string)
    requires |hop| == 1 && hop[0].url == first && Leads(env, hop[0]) == Some(target) && ChainOf(env, later, target)
    ensures ChainOf(env, hop + later, first)
    ensures NextUrl(env, hop + later, first) == NextUrl(env, later, target)
  {
    var all := hop + later;
    forall i | 0 <= i < |all| - 1
      ensures Leads(env, all[i]) == Some(all[i + 1].url)
    {
      if i > 0 {
        assert all[i] == later[i - 1] && all[i + 1] == later[i];
      }
    }
  }

  lemma CompletedInFront(env: Environment, hop: seq<Exchange>, later: seq<Exchange>, first: string, target: string,
                         chain: seq<Redirect>, redirect: Redirect, d: Downloaded)
    requires |hop| == 1 && hop[0].url == first && Leads(env, hop[0]) == Some(target)
    requires redirect == Redirect(hop[0].approval.value, target, hop[0].result.value.status, IsPermanent(hop[0].result.value.status))
    requires chain + [redirect] <= d.redirectChain
    requires Completed(env, later, target, d.redirectChain[|chain + [redirect]|..], d)
    ensures chain <= d.redirectChain && Completed(env, hop + later, first, d.redirectChain[|chain|..], d)
  {
    HopsInFront(env, hop, later, first, target);
    var tail, all := d.redirectChain[|chain|..], hop + later;
    var rest := d.redirectChain[|chain + [redirect]|..];
    assert tail[0] == redirect && tail[1..] == rest;
    forall i | 0 <= i < |tail|
      ensures Leads(env, all[i]).Some?
      ensures tail[i].fromUrl == all[i].approval.value && tail[i].toUrl == Leads(env, all[i]).value
      ensures tail[i].status == all[i].result.value.status && (tail[i].permanent <==> tail[i].status in {301, 308})
    {
      if i > 0 {
        assert tail[i] == rest[i - 1] && all[i] == later[i - 1];
      }
    }
  }

  lemma ExplainedInFront(env: Environment, hop: seq<Exchange>, later: seq<Exchange>, first: string, target: string,
                         redirects: nat, maxRedirects: nat, error: DownloadError, from: nat, to: nat)
    requires |hop| == 1 && hop[0].url == first && Leads(env, hop[0]) == Some(target) && ChainOf(env, later, target)
    requires Explained(env, later, target, redirects + 1, maxRedirects, error, EndOf(hop[0]), to)
    ensures Explained(env, hop + later, first, redirects, maxRedirects, error, from, to)
  {
    HopsInFront(env, hop, later, first, target);
    TurnInFront(hop, later, from);
    if later != [] {
      assert (hop + later)[|hop + later| - 1] == later[|later| - 1];
    }
  }

  lemma TurnInFront(hop: seq<Exchange>, later: seq<Exchange>, from: nat)
    requires |hop| == 1
    ensures Turn(hop + later, from) == Turn(later, EndOf(hop[0]))
  {
    if later != [] {
      assert (hop + later)[|hop + later| - 1] == later[|later| - 1];
    }
  }

  // What was permitted stays so while the log and the fetches grow.
  lemma StillPermitted(env: Environment, options: Options, log: seq<Exchange>, fetches: seq<Fetch>, more: seq<Exchange>,
                       moreFetches: seq<Fetch>, k: nat)
    requires k < |log| && PermittedAt(env, options, log, fetches, k)
    ensures PermittedAt(env, options, log + more, fetches + moreFetches, k)
  {
    if NeedsRobots(env, options, log[k].approval.value, log[k].isPage) {
      var j :| 0 <= j < |fetches| && fetches[j].start + |fetches[j].hops| <= k && Permits(env, options, fetches[j], log[k].approval.value);
      assert (fetches + moreFetches)[j] == fetches[j];
    }
  }

  lemma StillFetched(env: Environment, log: seq<Exchange>, more: seq<Exchange>, f: Fetch)
    requires FetchSound(env, log, f)
    ensures FetchSound(env, log + more, f)
  {
    assert (log + more)[f.start..f.start + |f.hops|] == log[f.start..f.start + |f.hops|];
  }

  // The records of a download: every exchange as it went, every page permitted, every robots file
  // asked for once, and the cache what those files said.
  ghost predicate Records(env: Environment, options: Options, log: seq<Exchange>, fetches: seq<Fetch>, robots: map<string, Option<string>>) {
    && (forall k :: 0 <= k < |log| ==> ExchangeSound(env, log[k]) && PermittedAt(env, options, log, fetches, k))
    && (forall j :: 0 <= j < |fetches| ==> FetchSound(env, log, fetches[j]))
    && DistinctOrigins(fetches)
    && (forall o :: o in robots ==> exists j :: 0 <= j < |fetches| && Cached(env, fetches[j], o, robots[o]))
  }

  predicate Cached(env: Environment, f: Fetch, origin: string, rules: Option<string>) {
    f.origin == origin && FileAnswered(env, f) && rules == RulesIn(env, f)
  }

  lemma RecordsGrow(env: Environment, options: Options, log: seq<Exchange>, fetches: seq<Fetch>, robots: map<string, Option<string>>, e: Exchange)
    requires Records(env, options, log, fetches, robots) && ExchangeSound(env, e)
    requires NeedsRobots(env, options, e.approval.value, e.isPage) ==>
               exists j :: 0 <= j < |fetches| && Permits(env, options, fetches[j], e.approval.value)
    ensures Records(env, options, log + [e], fetches, robots)
  {
    var more := log + [e];
    assert fetches + [] == fetches;
    hide Permits, FetchSound, ExchangeSound, Cached;
    forall k | 0 <= k < |more|
      ensures ExchangeSound(env, more[k]) && PermittedAt(env, options, more, fetches, k)
    {
      if k < |log| {
        StillPermitted(env, options, log, fetches, [e], [], k);
      } else {
        LastPermitted(env, options, log, fetches, e);
      }
    }
    forall j | 0 <= j < |fetches|
      ensures FetchSound(env, more, fetches[j])
    {
      StillFetched(env, log, [e], fetches[j]);
    }
  }

  lemma LastPermitted(env: Environment, options: Options, log: seq<Exchange>, fetches: seq<Fetch>, e: Exchange)
    requires forall j :: 0 <= j < |fetches| ==> FetchSound(env, log, fetches[j])
    requires NeedsRobots(env, options, e.approval.value, e.isPage) ==>
               exists j :: 0 <= j < |fetches| && Permits(env, options, fetches[j], e.approval.value)
    ensures PermittedAt(env, options, log + [e], fetches, |log|)
  {
  }

  lemma FetchesGrow(env: Environment, options: Options, log: seq<Exchange>, fetches: seq<Fetch>, robots: map<string, Option<string>>, f: Fetch)
    requires Records(env, options, log, fetches, robots) && FetchSound(env, log, f)
    requires forall j :: 0 <= j < |fetches| ==> fetches[j].origin != f.origin
    ensures Records(env, options, log, fetches + [f], robots)
  {
    var more := fetches + [f];
    assert log + [] == log;
    hide Permits, FetchSound, ExchangeSound;
    forall k | 0 <= k < |log|
      ensures PermittedAt(env, options, log, more, k)
    {
      StillPermitted(env, options, log, fetches, [], [f], k);
    }
    forall o | o in robots
      ensures exists j :: 0 <= j < |more| && Cached(env, more[j], o, robots[o])
    {
      var j :| 0 <= j < |fetches| && Cached(env, fetches[j], o, robots[o]);
      assert Cached(env, more[j], o, robots[o]);
    }
  }

  // Why a page was refused on behalf of its origin's robots file: the file was answered and does
  // not permit the path, or asking for it failed.
  ghost predicate RefusedByRobots(env: Environment, options: Options, f: Fetch, url: string, error: DownloadError, from: nat, to: nat) {
    && f.origin == env.originOf(url)
    && (if FileAnswered(env, f) then error == UrlSecurity && !Permits(env, options, f, url)
        else Explained(env, f.hops, env.robotsUrlOf(f.origin), 0, options.maxRedirects, error, from, to))
  }

  // At its turn the next URL was approved, and then refused for its robots file.
  ghost predicate ExplainedByRobots(env: Environment, options: Options, fetches: seq<Fetch>, next: string, error: DownloadError, turn: nat, to: nat) {
    && env.approve(turn, next).Granted? && NeedsRobots(env, options, env.approve(turn, next).approved.value, true)
    && exists j :: 0 <= j < |fetches| && RefusedByRobots(env, options, fetches[j], env.approve(turn, next).approved.value, error, turn + 1, to)
  }

  // At most this many exchanges from a hop on.
  function Bound(options: Options, isPage: bool, redirects: nat): nat
    requires redirects <= options.maxRedirects + 1
  {
    var hops: nat := options.maxRedirects + 1 - redirects;
    if isPage then Times(hops, options.maxRedirects + 2) else hops
  }

  function Times(a: nat, b: nat): (product: nat)
    ensures product == a * b
  {
    a * b
  }

  lemma BoundOfNextHop(options: Options, redirects: nat)
    requires redirects <= options.maxRedirects
    ensures Bound(options, true, redirects)
            == 1 + Bound(options, false, 0) + Bound(options, true, redirects + 1)
    ensures Bound(options, false, redirects) == 1 + Bound(options, false, redirects + 1)
  {
    var n, m := options.maxRedirects + 1 - redirects, options.maxRedirects + 2;
    assert n * m == m + (n - 1) * m;
  }

  // Conditional headers went with the first exchange at most.
  predicate ConditionalOnlyFirst(hops: seq<Exchange>, first: bool) {
    forall i :: 0 <= i < |hops| ==> (hops[i].conditional ==> first && i == 0)
  }

  class DownloadSession {
    const env: Environment
    const options: Options
    var remainingBytes: nat
    var robotsCache: map<string, Option<string>>
    var clock: nat
    // What has been done so far: the connections made, the exchanges they were for, and the
    // robots files asked for.
    ghost var connections: seq<Connection>
    ghost var log: seq<Exchange>
    ghost var fetches: seq<Fetch>

    ghost predicate Budget()
      reads this`connections, this`remainingBytes, this`clock
    {
      Charged(env, connections, options.maxBytes, remainingBytes) && Ascending(connections, clock)
    }

    ghost predicate Recorded()
      reads this`log, this`fetches, this`robotsCache
    {
      Records(env, options, log, fetches, robotsCache)
    }

    // Every connection was made for one exchange of the log.
    ghost predicate Valid()
      reads this
    {
      Budget() && Recorded() && connections == Connections(log)
    }

    // The exchanges for robots files are those of the fetches, and there are none unless robots are respected.
    ghost predicate Covered()
      reads this`log, this`fetches
    {
      OfKind(log, false) == Fetched(fetches) && (!options.respectRobots ==> fetches == [])
    }

    // Every robots.txt asked for so far has been answered.
    ghost predicate RobotsSettled()
      reads this`fetches, this`robotsCache
    {
      forall j :: 0 <= j < |fetches| ==> fetches[j].origin in robotsCache
    }

    constructor (env: Environment, options: Options)
      ensures this.env == env && this.options == options && Valid() && Covered() && RobotsSettled()
      ensures remainingBytes == options.maxBytes && log == [] && connections == [] && fetches == [] && clock == 0
    {
      this.env, this.options := env, options;
      remainingBytes, robotsCache, clock := options.maxBytes, map[], 0;
      connections, log, fetches := [], [], [];
    }

    method Tick() returns (now: nat)
      requires Budget()
      modifies this`clock
      ensures Budget() && now == old(clock) && clock == old(clock) + 1
    {
      now := clock;
      clock := clock + 1;
    }

    // The data events of one response, each charged to the budget before it is kept.
    method ReadBody(chunks: seq<seq<Octet>>) returns (body: Result<seq<Octet>>)
      modifies this`remainingBytes
      ensures remainingBytes == old(remainingBytes) - Kept(chunks, old(remainingBytes))
      ensures body == if |Concat(chunks)| <= old(remainingBytes) then Ok(Concat(chunks)) else Err(ResponseTooLarge)
    {
      var kept := [];
      var i := 0;
      assert chunks[0..] == chunks;
      while i < |chunks|
        invariant 0 <= i <= |chunks|
        invariant Concat(chunks) == kept + Concat(chunks[i..])
        invariant |kept| == old(remainingBytes) - remainingBytes
        invariant Kept(chunks, old(remainingBytes)) == |kept| + Kept(chunks[i..], remainingBytes)
      {
        var chunk := chunks[i];
        assert chunks[i..][1..] == chunks[i + 1..];
        if |chunk| > remainingBytes {
          return Err(ResponseTooLarge);
        }
        remainingBytes := remainingBytes - |chunk|;
        assert kept + (chunk + Concat(chunks[i + 1..])) == (kept + chunk) + Concat(chunks[i + 1..]);
        kept := kept + chunk;
        i := i + 1;
      }
      assert chunks[i..] == [] && kept + [] == kept;
      body := Ok(kept);
    }

    // One connection, and what it costs whatever becomes of it.
    method RequestPinnedAtAddress(url: string, address: string) returns (response: Result<Response>)
      requires Budget()
      modifies this`remainingBytes, this`clock, this`connections
      ensures Budget() && clock == old(clock) + 1
      ensures connections == old(connections) + [Connection(old(clock), url, address, old(remainingBytes))]
      ensures response == Answered(env.connect(old(clock), url, address), old(remainingBytes))
      ensures remainingBytes == old(remainingBytes) - BytesKept(env.connect(old(clock), url, address), old(remainingBytes))
    {
      hide Answered, BytesKept, Charged;
      var transcript := Connect(url, address);
      ghost var c := Connection(old(clock), url, address, old(remainingBytes));
      OneMoreConnection(env, old(connections), c, options.maxBytes);
      response := Receive(transcript);
    }

    // What the server's answer comes to within the budget.
    method Receive(transcript: Transcript) returns (response: Result<Response>)
      modifies this`remainingBytes
      ensures response == Answered(transcript, old(remainingBytes))
      ensures remainingBytes == old(remainingBytes) - BytesKept(transcript, old(remainingBytes))
    {
      match transcript
      case NoResponse => return Err(HttpFailure(None));
      case NoAnswerInTime => return Err(RequestTimeout);
      case Answer(status, location, declared, chunks, ending) =>
        if IsRedirect(status) || status == 304 {
          return Ok(Response(status, location, []));
        }
        if declared > remainingBytes {
          return Err(ResponseTooLarge);
        }
        var body := ReadBody(chunks);
        if body.Err? {
          return Err(body.error);
        }
        match ending
        case Complete => return Ok(Response(status, location, body.value));
        case Aborted => return Err(HttpFailure(None));
        case TimedOut => return Err(RequestTimeout);
    }

    // The only way to the network: every connection is recorded.
    method Connect(url: string, address: string) returns (transcript: Transcript)
      requires Ascending(connections, clock)
      modifies this`clock, this`connections
      ensures transcript == env.connect(old(clock), url, address) && clock == old(clock) + 1
      ensures connections == old(connections) + [Connection(old(clock), url, address, remainingBytes)]
      ensures Ascending(connections, clock)
    {
      transcript := env.connect(clock, url, address);
      connections := connections + [Connection(clock, url, address, remainingBytes)];
      clock := clock + 1;
    }

    // Only a failure without an HTTP status moves on to the next approved address.
    method RequestPinned(approved: Approved) returns (result: Result<Response>, ghost attempts: seq<Connection>)
      requires Budget()
      modifies this`remainingBytes, this`clock, this`connections
      ensures Budget() && clock >= old(clock) && connections == old(connections) + attempts
      ensures Tried(env, approved, attempts, result)
      ensures attempts != [] ==> attempts[0].at == old(clock) && attempts[0].remaining == old(remainingBytes)
      ensures result.Ok? ==> attempts != [] && clock == attempts[|attempts| - 1].at + 1
    {
      hide Budget, Tried, AllFailed;
      NothingTried(env, approved);
      attempts := [];
      assert connections + [] == connections;
      if |approved.addresses| == 0 {
        result := Err(UrlSecurity);
        return;
      }
      var i := 0;
      while i < |approved.addresses|
        invariant 0 <= i == |attempts| <= |approved.addresses|
        invariant Budget() && clock >= old(clock) && connections == old(connections) + attempts
        invariant i == 0 ==> clock == old(clock) && remainingBytes == old(remainingBytes)
        invariant i > 0 ==> attempts[0].at == old(clock) && attempts[0].remaining == old(remainingBytes)
        invariant AllFailed(env, approved, attempts)
        invariant i == |approved.addresses| ==> Tried(env, approved, attempts, Err(HttpFailure(None)))
      {
        var another;
        ghost var attempt;
        result, attempt, another := TryAddress(approved, i, attempts);
        assert (old(connections) + attempts) + [attempt] == old(connections) + (attempts + [attempt]);
        attempts := attempts + [attempt];
        if !another {
          return;
        }
        i := i + 1;
      }
      result := Err(HttpFailure(None));
    }

    // One address: an answer or an HTTP failure ends the exchange, and so does the deadline.
    method TryAddress(approved: Approved, i: nat, ghost attempts: seq<Connection>)
      returns (result: Result<Response>, ghost attempt: Connection, another: bool)
      requires Budget() && i == |attempts| < |approved.addresses| && AllFailed(env, approved, attempts)
      modifies this`remainingBytes, this`clock, this`connections
      ensures Budget() && clock > old(clock) && connections == old(connections) + [attempt]
      ensures attempt.at == old(clock) && attempt.remaining == old(remainingBytes)
      ensures result.Ok? && !another ==> clock == attempt.at + 1
      ensures !another ==> Tried(env, approved, attempts + [attempt], result)
      ensures another ==> AllFailed(env, approved, attempts + [attempt])
      ensures another && i + 1 == |approved.addresses| ==> Tried(env, approved, attempts + [attempt], Err(HttpFailure(None)))
    {
      hide Charged, Ascending, Answered, Tried, InTurn, AllFailed, BytesKept;
      attempt := Connection(clock, approved.value, approved.addresses[i], remainingBytes);
      OneMoreAttempt(env, approved, attempts, attempt);
      result := RequestPinnedAtAddress(approved.value, approved.addresses[i]);
      another := false;
      if result.Ok? || result.error != HttpFailure(None) {
        return;
      }
      var now := Tick();
      if env.pastDeadline(now) {
        result := Err(RequestTimeout);
        return;
      }
      another := true;
    }

    /*** Hops ***/

    // Approval, the robots check of a page, and throttling.
    method PrepareHop(url: string, isPage: bool) returns (ready: Result<Approved>, ghost throttledAt: nat)
      requires Valid() && (isPage ==> Covered() && RobotsSettled())
      modifies this
      ensures Valid() && clock > old(clock)
      ensures if isPage then Covered() && OfKind(log, true) == OfKind(old(log), true)
              else log == old(log) && fetches == old(fetches) && robotsCache == old(robotsCache)
      ensures |log| <= |old(log)| + (if isPage then Bound(options, false, 0) else 0)
      ensures ready.Ok? ==>
                && env.approve(old(clock), url) == Granted(ready.value)
                && old(clock) < throttledAt < clock && !env.throttleExpires(throttledAt)
                && (isPage ==> RobotsSettled())
                && (isPage && options.respectRobots && env.pathnameOf(ready.value.value) != "/robots.txt" ==> PermittedBySome(ready.value.value))
      ensures ready.Err? ==>
                || (clock == old(clock) + 1 && NotApproved(env, old(clock), url, ready.error))
                || (ready.error == RequestTimeout && old(clock) + 1 < clock && env.throttleExpires(clock - 1))
                || (isPage && ExplainedByRobots(env, options, fetches, url, ready.error, old(clock), clock))
      decreases if isPage then 1 else 0, 0, 1
    {
      hide Recorded, Covered, Charged;
      throttledAt := 0;
      var approvedAt := Tick();
      var approval := env.approve(approvedAt, url);
      if !approval.Granted? {
        ready := Err(ApprovalError(approval));
        return;
      }
      var approved := approval.approved;
      if NeedsRobots(env, options, approved.value, isPage) {
        var refusal := AssertRobotsAllowed(approved.value);
        if refusal.Some? {
          ready := Err(refusal.value);
          return;
        }
      }
      var now := Tick();
      if env.throttleExpires(now) {
        ready := Err(RequestTimeout);
        return;
      }
      throttledAt := now;
      ready := Ok(approved);
    }

    // Some robots file already answered permits the URL.
    ghost predicate PermittedBySome(url: string)
      reads this`fetches
    {
      exists j :: 0 <= j < |fetches| && Permits(env, options, fetches[j], url)
    }

    // One hop: preparation and the exchange, which is logged with its connections.
    method RequestHop(url: string, redirects: nat, conditional: bool, isPage: bool)
      returns (hop: Result<Hop>, ghost hops: seq<Exchange>)
      requires Valid() && redirects <= options.maxRedirects
      requires if isPage then Covered() && RobotsSettled() else !conditional
      modifies this
      ensures Valid() && clock > old(clock)
      ensures if isPage then Covered() && OfKind(log, true) == OfKind(old(log), true) + hops
              else log == old(log) + hops && fetches == old(fetches) && robotsCache == old(robotsCache)
      ensures |log| <= |old(log)| + 1 + (if isPage then Bound(options, false, 0) else 0)
      ensures |hops| <= 1 && ConditionalOnlyFirst(hops, conditional && redirects == 0)
      ensures hops != [] ==> hops[0].url == url && hops[0].isPage == isPage
      ensures hop.Ok? ==>
                && (isPage ==> RobotsSettled())
                && |hops| == 1 && hops[0].approval.value == hop.value.approved && hops[0].result == Ok(hop.value.response)
                && clock == EndOf(hops[0])
      ensures hop.Err? ==>
                || Explained(env, hops, url, redirects, options.maxRedirects, hop.error, old(clock), clock)
                || (isPage && hops == [] && ExplainedByRobots(env, options, fetches, url, hop.error, old(clock), clock))
      decreases if isPage then 2 else 0, options.maxRedirects + 1 - redirects, 0
    {
      hide Budget, Recorded, Covered, Tried, Permits, ExplainedByRobots, NotApproved, Bound;
      NoHops(env, log, url);
      hops := [];
      var ready;
      ghost var throttledAt;
      ready, throttledAt := PrepareHop(url, isPage);
      if ready.Err? {
        hop := Err(ready.error);
        return;
      }
      var approved := ready.value;
      var result;
      result, hops := RequestAndLog(url, approved, old(clock), throttledAt, isPage, conditional && redirects == 0);
      if result.Err? {
        hop := Err(result.error);
        return;
      }
      hop := Ok(Hop(approved.value, result.value));
    }

    method RequestAndLog(url: string, approved: Approved, ghost approvedAt: nat, ghost throttledAt: nat, ghost isPage: bool, conditional: bool)
      returns (result: Result<Response>, ghost hops: seq<Exchange>)
      requires Valid() && (isPage ==> Covered()) && (conditional ==> isPage)
      requires env.approve(approvedAt, url) == Granted(approved)
      requires approvedAt < throttledAt < clock && !env.throttleExpires(throttledAt)
      requires NeedsRobots(env, options, approved.value, isPage) ==> PermittedBySome(approved.value)
      modifies this`remainingBytes, this`clock, this`connections, this`log
      ensures Valid() && clock >= old(clock) && (isPage ==> Covered())
      ensures |hops| == 1 && log == old(log) + hops
      ensures OfKind(log, true) == OfKind(old(log), true) + (if isPage then hops else [])
      ensures hops[0].url == url && hops[0].approval == approved && hops[0].isPage == isPage
      ensures hops[0].conditional == conditional && hops[0].result == result
      ensures result.Ok? ==> clock == EndOf(hops[0])
      ensures result.Err? ==> !(result.error.HttpFailure? && result.error.status.Some?)
    {
      hide Charged, Ascending, Answered, Records, Permits;
      ghost var attempts;
      result, attempts := RequestPinned(approved);
      ghost var e := Exchange(url, approved, approvedAt, throttledAt, isPage, conditional, attempts, result);
      FailuresHaveNoStatus(env, approved, attempts, result);
      OneMoreExchange(log, e);
      RecordsGrow(env, options, log, fetches, robotsCache, e);
      log := log + [e];
      hops := [e];
    }

    // Follows redirects from a URL. `hops` are the exchanges of this chain, without those of its
    // robots checks.
    method Follow(requestedUrl: string, currentUrl: string, redirects: nat, conditional: bool, chain: seq<Redirect>, isPage: bool)
      returns (r: Result<Downloaded>, ghost hops: seq<Exchange>)
      requires Valid() && redirects == |chain| <= options.maxRedirects + 1
      requires if isPage then Covered() && RobotsSettled() else !conditional
      modifies this
      ensures Valid() && clock >= old(clock)
      ensures if isPage then Covered() && OfKind(log, true) == OfKind(old(log), true) + hops
              else log == old(log) + hops && fetches == old(fetches) && robotsCache == old(robotsCache)
      ensures forall i :: 0 <= i < |hops| ==> hops[i].isPage == isPage
      ensures |log| <= |old(log)| + Bound(options, isPage, redirects)
      ensures ConditionalOnlyFirst(hops, conditional && redirects == 0) && ChainOf(env, hops, currentUrl)
      ensures r.Ok? ==>
                && (isPage ==> RobotsSettled())
                && r.value.requestedUrl == requestedUrl && chain <= r.value.redirectChain
                && |r.value.redirectChain| <= options.maxRedirects
                && Completed(env, hops, currentUrl, r.value.redirectChain[|chain|..], r.value)
      ensures r.Err? ==>
                || Explained(env, hops, currentUrl, redirects, options.maxRedirects, r.error, old(clock), clock)
                || (isPage && NextUrl(env, hops, currentUrl).Some?
                    && ExplainedByRobots(env, options, fetches, NextUrl(env, hops, currentUrl).value, r.error, Turn(hops, old(clock)), clock))
      decreases if isPage then 2 else 0, options.maxRedirects + 1 - redirects, 1
    {
      hide Valid, Covered, Bound, Completed, ExplainedByRobots, ConditionalOnlyFirst;
      NoHops(env, log, currentUrl);
      NothingConditional(conditional && redirects == 0);
      hops := [];
      if redirects > options.maxRedirects {
        r := Err(TooManyRedirects);
        return;
      }
      BoundOfNextHop(options, redirects);
      var hop;
      hop, hops := RequestHop(currentUrl, redirects, conditional, isPage);
      if hop.Err? {
        r := Err(hop.error);
        return;
      }
      var approved, response := hop.value.approved, hop.value.response;
      if IsRedirect(response.status) {
        if response.location.None? {
          r := Err(HttpFailure(Some(response.status)));
          return;
        }
        var target := env.resolve(response.location.value, approved);
        if target.None? {
          r := Err(InvalidUrl);
          return;
        }
        ghost var later;
        ghost var from := clock;
        r, later := FollowOnward(requestedUrl, redirects, conditional, chain, isPage, approved, response, target.value, hops);
        hops := hops + later;
        if r.Err? {
          ExplainedSince(env, hops, currentUrl, redirects, options.maxRedirects, r.error, old(clock), from, clock);
        }
        return;
      }
      if response.status != 304 && !(200 <= response.status < 300) {
        r := Err(HttpFailure(Some(response.status)));
        return;
      }
      r := Ok(Downloaded(requestedUrl, approved, response.status, response.body, chain));
      CompletedHere(env, hops, currentUrl, chain, r.value);
    }

    // The hops after one that led to `target`.
    method FollowOnward(requestedUrl: string, redirects: nat, conditional: bool, chain: seq<Redirect>, isPage: bool,
                        approved: string, response: Response, target: string, ghost hop: seq<Exchange>)
      returns (r: Result<Downloaded>, ghost later: seq<Exchange>)
      requires Valid() && redirects == |chain| <= options.maxRedirects
      requires if isPage then Covered() && RobotsSettled() else !conditional
      requires |hop| == 1 && hop[0].approval.value == approved && hop[0].result == Ok(response)
      requires Leads(env, hop[0]) == Some(target) && hop[0].isPage == isPage && clock == EndOf(hop[0])
      requires ConditionalOnlyFirst(hop, conditional && redirects == 0)
      modifies this
      ensures Valid() && clock >= old(clock)
      ensures if isPage then Covered() && OfKind(log, true) == OfKind(old(log), true) + later
              else log == old(log) + later && fetches == old(fetches) && robotsCache == old(robotsCache)
      ensures forall i :: 0 <= i < |hop + later| ==> (hop + later)[i].isPage == isPage
      ensures |log| <= |old(log)| + Bound(options, isPage, redirects + 1)
      ensures ConditionalOnlyFirst(hop + later, conditional && redirects == 0) && ChainOf(env, hop + later, hop[0].url)
      ensures r.Ok? ==>
                && (isPage ==> RobotsSettled())
                && r.value.requestedUrl == requestedUrl && chain <= r.value.redirectChain
                && |r.value.redirectChain| <= options.maxRedirects
                && Completed(env, hop + later, hop[0].url, r.value.redirectChain[|chain|..], r.value)
      ensures r.Err? ==>
                || Explained(env, hop + later, hop[0].url, redirects, options.maxRedirects, r.error, old(clock), clock)
                || (isPage && NextUrl(env, hop + later, hop[0].url).Some?
                    && ExplainedByRobots(env, options, fetches, NextUrl(env, hop + later, hop[0].url).value, r.error,
                                         Turn(hop + later, old(clock)), clock))
      decreases if isPage then 2 else 0, options.maxRedirects + 1 - redirects, 0
    {
      hide Valid, Covered, Bound, Completed, Explained, ExplainedByRobots, ConditionalOnlyFirst, ChainOf, Leads, NextUrl, Turn, EndOf;
      var redirect := Redirect(approved, target, response.status, IsPermanent(response.status));
      r, later := Follow(requestedUrl, target, redirects + 1, conditional, chain + [redirect], isPage);
      ghost var first := hop[0].url;
      HopsInFront(env, hop, later, first, target);
      TurnInFront(hop, later, old(clock));
      ConditionalInFront(hop, later, conditional && redirects == 0);
      if r.Ok? {
        CompletedInFront(env, hop, later, first, target, chain, redirect, r.value);
      } else if Explained(env, later, target, redirects + 1, options.maxRedirects, r.error, old(clock), clock) {
        ExplainedInFront(env, hop, later, first, target, redirects, options.maxRedirects, r.error, old(clock), clock);
      }
    }

    /*** robots.txt ***/

    method AssertRobotsAllowed(value: string) returns (refusal: Option<DownloadError>)
      requires Valid() && Covered() && RobotsSettled() && options.respectRobots
      modifies this
      ensures Valid() && Covered() && clock >= old(clock)
      ensures OfKind(log, true) == OfKind(old(log), true)
      ensures |log| <= |old(log)| + Bound(options, false, 0)
      ensures env.originOf(value) in old(robotsCache) ==> log == old(log) && connections == old(connections)
      ensures refusal.None? ==> RobotsSettled() && PermittedBySome(value)
      ensures refusal.Some? ==>
                exists j :: 0 <= j < |fetches| && RefusedByRobots(env, options, fetches[j], value, refusal.value, old(clock), clock)
      decreases 1, 0, 0
    {
      hide Budget, Recorded, Covered, Connections, Bound, Explained, PathPermitted, Permits, RefusedByRobots;
      var origin := env.originOf(value);
      if origin !in robotsCache {
        refusal := FetchRobots(origin);
        if refusal.Some? {
          FetchFailureRefuses(env, options, fetches, value, refusal.value, old(clock), clock);
          return;
        }
      }
      refusal := DecideByCache(value, old(clock));
    }

    // What the origin's robots file, as remembered, says about the URL.
    method DecideByCache(value: string, ghost from: nat) returns (refusal: Option<DownloadError>)
      requires Recorded() && env.originOf(value) in robotsCache
      ensures refusal.None? ==> PermittedBySome(value)
      ensures refusal.Some? ==>
                exists j :: 0 <= j < |fetches| && RefusedByRobots(env, options, fetches[j], value, refusal.value, from, clock)
    {
      hide PathPermitted, Permits, RefusedByRobots, Explained, PermittedAt, FetchSound, ExchangeSound;
      var rules := robotsCache[env.originOf(value)];
      ghost var j :| 0 <= j < |fetches| && Cached(env, fetches[j], env.originOf(value), rules);
      CachedDecides(env, options, fetches[j], value, rules, from, clock);
      if rules.None? {
        return None;
      }
      var allowed := IsAllowedByRobots(rules.value, RobotsPath(env, value), options.userAgent);
      PathPermittedMeans(env, options, rules.value, value);
      refusal := if allowed then None else Some(UrlSecurity);
    }

    // Asks for an origin's robots file and remembers what it said; a 404 says nothing.
    method FetchRobots(origin: string) returns (failure: Option<DownloadError>)
      requires Valid() && Covered() && RobotsSettled() && origin !in robotsCache && options.respectRobots
      modifies this
      ensures Valid() && Covered() && clock >= old(clock)
      ensures OfKind(log, true) == OfKind(old(log), true)
      ensures |log| <= |old(log)| + Bound(options, false, 0)
      ensures failure.None? ==> RobotsSettled() && origin in robotsCache
      ensures failure.Some? ==>
                && fetches != [] && fetches[|fetches| - 1].origin == origin && !FileAnswered(env, fetches[|fetches| - 1])
                && Explained(env, fetches[|fetches| - 1].hops, env.robotsUrlOf(origin), 0, options.maxRedirects, failure.value,
                             old(clock), clock)
      decreases 0, options.maxRedirects + 2, 1
    {
      hide Budget, Records, Covered, Bound, Explained, FileAnswered;
      var resource := FetchFile(origin);
      ghost var f := fetches[|fetches| - 1];
      if resource.Err? {
        if resource.error == HttpFailure(Some(404)) {
          CacheGrows(env, options, log, fetches, robotsCache, f);
          robotsCache := robotsCache[origin := None];
          return None;
        }
        return Some(resource.error);
      }
      CacheGrows(env, options, log, fetches, robotsCache, f);
      robotsCache := robotsCache[origin := Some(env.decode(resource.value.body))];
      failure := None;
    }

    // The exchanges for the file, recorded as one fetch.
    method FetchFile(origin: string) returns (resource: Result<Downloaded>)
      requires Valid() && Covered() && RobotsSettled() && origin !in robotsCache && options.respectRobots
      modifies this
      ensures Valid() && Covered() && clock >= old(clock) && robotsCache == old(robotsCache)
      ensures OfKind(log, true) == OfKind(old(log), true)
      ensures |log| <= |old(log)| + Bound(options, false, 0)
      ensures |fetches| == |old(fetches)| + 1 && old(fetches) <= fetches && fetches[|fetches| - 1].origin == origin
      ensures var f := fetches[|fetches| - 1];
              match resource
              case Ok(d) => FileAnswered(env, f) && RulesIn(env, f) == Some(env.decode(d.body))
              case Err(error) =>
                && Explained(env, f.hops, env.robotsUrlOf(origin), 0, options.maxRedirects, error, old(clock), clock)
                && (FileAnswered(env, f) <==> error == HttpFailure(Some(404)))
                && (FileAnswered(env, f) ==> RulesIn(env, f) == None)
      decreases 0, options.maxRedirects + 2, 0
    {
      hide Budget, Recorded, Connections, OfKind, Fetched, Bound, Explained, Completed, FileAnswered, ChainOf, RulesIn;
      var robotsUrl := env.robotsUrlOf(origin);
      ghost var hops;
      resource, hops := FollowFile(robotsUrl);
      ghost var f := Fetch(origin, |old(log)|, hops);
      if resource.Ok? {
        CompletedFetch(env, f, resource.value);
      } else {
        FailedFetch(env, f, options.maxRedirects, resource.error, old(clock), clock);
      }
      Remember(f, old(log));
    }

    // The redirect chain of a robots file.
    method FollowFile(robotsUrl: string) returns (resource: Result<Downloaded>, ghost hops: seq<Exchange>)
      requires Valid()
      modifies this
      ensures Valid() && clock >= old(clock) && fetches == old(fetches) && robotsCache == old(robotsCache)
      ensures log == old(log) + hops && |log| <= |old(log)| + Bound(options, false, 0)
      ensures forall i :: 0 <= i < |hops| ==> !hops[i].isPage
      ensures ChainOf(env, hops, robotsUrl)
      ensures resource.Ok? ==> Completed(env, hops, robotsUrl, resource.value.redirectChain, resource.value)
      ensures resource.Err? ==> Explained(env, hops, robotsUrl, 0, options.maxRedirects, resource.error, old(clock), clock)
      decreases 0, options.maxRedirects + 1, 2
    {
      hide Valid, Bound, Explained, Completed, ChainOf, Covered;
      resource, hops := Follow(robotsUrl, robotsUrl, 0, false, [], false);
      assert resource.Ok? ==> resource.value.redirectChain[0..] == resource.value.redirectChain;
    }

    // Records the exchanges that end the log as a fetch.
    ghost method Remember(f: Fetch, before: seq<Exchange>)
      requires Recorded() && OfKind(before, false) == Fetched(fetches) && log == before + f.hops && f.start == |before|
      requires forall i :: 0 <= i < |f.hops| ==> !f.hops[i].isPage
      requires ChainOf(env, f.hops, env.robotsUrlOf(f.origin)) && RobotsSettled() && f.origin !in robotsCache && options.respectRobots
      modifies this`fetches
      ensures fetches == old(fetches) + [f] && Recorded() && Covered() && OfKind(log, true) == OfKind(before, true)
    {
      hide Records, OfKind, Fetched, ChainOf, Leads;
      FetchRecorded(env, options, before, log, fetches, robotsCache, f);
      fetches := fetches + [f];
    }

    /*** A whole download ***/

    // The account of a download: every byte of every connection charged, every connection made for
    // one exchange, at most (R + 1)(R + 2) exchanges, robots files asked for once each and heeded,
    // the redirects those of the servers, and the outcome what the last answer or failure calls for.
    ghost predicate Accounts(value: string, conditional: bool, r: Result<Downloaded>)
      reads this
    {
      var pages := OfKind(log, true);
      && BytesAccounted(env, log, connections, clock, options.maxBytes, remainingBytes)
      && |log| <= (options.maxRedirects + 1) * (options.maxRedirects + 2)
      && Records(env, options, log, fetches, robotsCache) && OfKind(log, false) == Fetched(fetches)
      && (!options.respectRobots ==> fetches == [])
      && ChainOf(env, pages, value) && ConditionalOnlyFirst(pages, conditional)
      && match r
         case Ok(d) => Completed(env, pages, value, d.redirectChain, d)
         case Err(error) =>
           || Explained(env, pages, value, 0, options.maxRedirects, error, 0, clock)
           || (NextUrl(env, pages, value).Some?
               && ExplainedByRobots(env, options, fetches, NextUrl(env, pages, value).value, error, Turn(pages, 0), clock))
    }

    method Run(value: string, conditional: bool) returns (r: Result<Downloaded>)
      requires Valid() && Covered() && RobotsSettled() && log == [] && clock == 0
      modifies this
      ensures Accounts(value, conditional, r)
      ensures r.Ok? ==> r.value.requestedUrl == value && |r.value.redirectChain| <= options.maxRedirects
    {
      hide Records, Explained, ExplainedByRobots, ConditionalOnlyFirst, ChainOf, Completed, Charged, Ascending, Connections, NextUrl;
      ghost var hops;
      r, hops := Follow(value, value, 0, conditional, [], true);
      assert OfKind(log, true) == hops;
      BudgetIsShared(env, connections, options.maxBytes, remainingBytes);
      if r.Ok? {
        assert r.value.redirectChain[0..] == r.value.redirectChain;
      }
    }
  }

  // The cache takes over what an answered fetch said.
  lemma CacheGrows(env: Environment, options: Options, log: seq<Exchange>, fetches: seq<Fetch>, robots: map<string, Option<string>>, f: Fetch)
    requires Records(env, options, log, fetches, robots) && f in fetches && FileAnswered(env, f)
    ensures Records(env, options, log, fetches, robots[f.origin := RulesIn(env, f)])
  {
    hide PermittedAt, FetchSound, ExchangeSound;
    var j :| 0 <= j < |fetches| && fetches[j] == f;
    assert Cached(env, fetches[j], f.origin, RulesIn(env, f));
  }

  // After an exchange it does not matter when the chain began.
  lemma ExplainedSince(env: Environment, hops: seq<Exchange>, first: string, redirects: nat, maxRedirects: nat, error: DownloadError,
                       earlier: nat, from: nat, to: nat)
    requires hops != []
    ensures Turn(hops, from) == Turn(hops, earlier)
    ensures Explained(env, hops, first, redirects, maxRedirects, error, from, to) ==>
              Explained(env, hops, first, redirects, maxRedirects, error, earlier, to)
  {
  }

  lemma NothingConditional(first: bool)
    ensures ConditionalOnlyFirst([], first)
  {
  }

  lemma ConditionalInFront(hop: seq<Exchange>, later: seq<Exchange>, first: bool)
    requires |hop| == 1 && ConditionalOnlyFirst(hop, first) && ConditionalOnlyFirst(later, false)
    ensures ConditionalOnlyFirst(hop + later, first)
  {
  }

  lemma CompletedHere(env: Environment, hops: seq<Exchange>, first: string, chain: seq<Redirect>, d: Downloaded)
    requires |hops| == 1 && hops[0].url == first && hops[0].result.Ok? && IsFinal(hops[0].result.value.status)
    requires d.redirectChain == chain && d.finalUrl == hops[0].approval.value
    requires d.status == hops[0].result.value.status && d.body == hops[0].result.value.body
    ensures Completed(env, hops, first, d.redirectChain[|chain|..], d)
  {
  }

  lemma FailuresHaveNoStatus(env: Environment, approved: Approved, attempts: seq<Connection>, result: Result<Response>)
    requires Tried(env, approved, attempts, result)
    ensures result.Err? ==> !(result.error.HttpFailure? && result.error.status.Some?)
  {
  }

  lemma FetchFailureRefuses(env: Environment, options: Options, fetches: seq<Fetch>, url: string, error: DownloadError, from: nat, to: nat)
    requires fetches != [] && var f := fetches[|fetches| - 1];
               && f.origin == env.originOf(url) && !FileAnswered(env, f)
               && Explained(env, f.hops, env.robotsUrlOf(env.originOf(url)), 0, options.maxRedirects, error, from, to)
    ensures exists j :: 0 <= j < |fetches| && RefusedByRobots(env, options, fetches[j], url, error, from, to)
  {
    assert RefusedByRobots(env, options, fetches[|fetches| - 1], url, error, from, to);
  }

  lemma CachedDecides(env: Environment, options: Options, f: Fetch, url: string, rules: Option<string>, from: nat, to: nat)
    requires Cached(env, f, env.originOf(url), rules)
    ensures Permits(env, options, f, url) <==> (rules.Some? ==> PathPermitted(env, options, rules.value, url))
    ensures !Permits(env, options, f, url) ==> RefusedByRobots(env, options, f, url, UrlSecurity, from, to)
  {
  }

  lemma PathPermittedMeans(env: Environment, options: Options, rules: string, url: string)
    ensures PathPermitted(env, options, rules, url) <==>
              FilePermits(Directives(rules), ProductToken(options.userAgent), RobotsPath(env, url))
  {
  }

  // Nobody has asked for the robots file of an origin that is not in the cache.
  lemma FetchedOrigins(env: Environment, options: Options, log: seq<Exchange>, fetches: seq<Fetch>, robots: map<string, Option<string>>, origin: string)
    requires origin !in robots && forall j :: 0 <= j < |fetches| ==> fetches[j].origin in robots
    ensures forall j :: 0 <= j < |fetches| ==> fetches[j].origin != origin
  {
  }

  lemma FetchRecorded(env: Environment, options: Options, before: seq<Exchange>, log: seq<Exchange>, fetches: seq<Fetch>,
                      robots: map<string, Option<string>>, f: Fetch)
    requires Records(env, options, log, fetches, robots) && OfKind(before, false) == Fetched(fetches)
    requires log == before + f.hops && f.start == |before| && forall i :: 0 <= i < |f.hops| ==> !f.hops[i].isPage
    requires ChainOf(env, f.hops, env.robotsUrlOf(f.origin))
    requires f.origin !in robots && forall j :: 0 <= j < |fetches| ==> fetches[j].origin in robots
    ensures Records(env, options, log, fetches + [f], robots)
    ensures OfKind(log, false) == Fetched(fetches + [f]) && OfKind(log, true) == OfKind(before, true)
  {
    hide Records, OfKind, Fetched, ChainOf, Leads;
    FetchedOrigins(env, options, log, fetches, robots, f.origin);
    OfOneKind(before, f.hops, false);
    OneMoreFetch(fetches, f);
    assert log[|before|..|before| + |f.hops|] == f.hops;
    FetchesGrow(env, options, log, fetches, robots, f);
  }

  lemma OneMoreFetch(fetches: seq<Fetch>, f: Fetch)
    ensures Fetched(fetches + [f]) == Fetched(fetches) + f.hops
  {
    assert (fetches + [f])[..|fetches|] == fetches;
  }

  lemma CompletedFetch(env: Environment, f: Fetch, d: Downloaded)
    requires Completed(env, f.hops, env.robotsUrlOf(f.origin), d.redirectChain, d)
    ensures FileAnswered(env, f) && RulesIn(env, f) == Some(env.decode(d.body))
  {
  }

  // A fetch that failed with a 404 was answered; one that failed otherwise was not.
  lemma FailedFetch(env: Environment, f: Fetch, maxRedirects: nat, error: DownloadError, from: nat, to: nat)
    requires Explained(env, f.hops, env.robotsUrlOf(f.origin), 0, maxRedirects, error, from, to)
    ensures FileAnswered(env, f) <==> error == HttpFailure(Some(404))
    ensures error == HttpFailure(Some(404)) ==> RulesIn(env, f) == None
  {
  }

  datatype Limits = Limits(timeoutMs: int, maxBytes: int, maxRedirects: int)

  predicate SafeLimits(limits: Limits, allowed: Limits) {
    && 0 < limits.timeoutMs <= allowed.timeoutMs && 0 < limits.maxBytes <= allowed.maxBytes
    && 0 <= limits.maxRedirects <= allowed.maxRedirects
  }

  class SecureHttpGateway {
    const env: Environment
    const limits: Limits
    const respectRobots: bool
    const userAgent: string

    constructor (env: Environment, limits: Limits, respectRobots: bool, userAgent: string)
      ensures this.env == env && this.limits == limits && this.respectRobots == respectRobots && this.userAgent == userAgent
    {
      this.env, this.limits, this.respectRobots, this.userAgent := env, limits, respectRobots, userAgent;
    }

    function LimitsFor(requested: Option<Limits>): Limits {
      if requested.Some? then requested.value else limits
    }

    // What holds of every download, whatever the servers answer, once it holds a permit. `d` is the
    // record of what was done for it.
    method Download(value: string, conditional: bool, requested: Option<Limits>) returns (r: Result<Downloaded>, ghost d: Option<DownloadSession>)
      ensures d.None? ==> r == Err(UnsafeLimits)
      ensures r.Ok? ==>
                && r.value.requestedUrl == value && (r.value.status == 304 || 200 <= r.value.status < 300)
                && |r.value.redirectChain| <= LimitsFor(requested).maxRedirects <= limits.maxRedirects
                && |r.value.body| <= LimitsFor(requested).maxBytes <= limits.maxBytes
                && RedirectsAreKnown(r.value.redirectChain)
      ensures d.Some? && respectRobots ==>
                forall k :: 0 <= k < |d.value.log| && d.value.log[k].isPage && env.pathnameOf(d.value.log[k].approval.value) != "/robots.txt" ==>
                  exists j :: 0 <= j < |d.value.fetches| && HeededAt(env, userAgent, d.value.fetches[j], d.value.log[k].approval.value, k)
      ensures d.Some? && !respectRobots ==>
                d.value.fetches == [] && forall k :: 0 <= k < |d.value.log| ==> d.value.log[k].isPage
      ensures var asked := LimitsFor(requested);
              d.Some? <==> (&& 0 < asked.timeoutMs <= limits.timeoutMs && 0 < asked.maxBytes <= limits.maxBytes
                            && 0 <= asked.maxRedirects <= limits.maxRedirects)
      ensures d.Some? ==>
                && d.value.env == env
                && d.value.options == Options(LimitsFor(requested).maxRedirects, LimitsFor(requested).maxBytes, respectRobots, userAgent)
                && d.value.Accounts(value, conditional, r)
    {
      var limits := LimitsFor(requested);
      if !SafeLimits(limits, this.limits) {
        r, d := Err(UnsafeLimits), None;
        return;
      }
      hide Records, Explained, ExplainedByRobots, ConditionalOnlyFirst, ChainOf, Completed, Charged, Ascending, Connections, NextUrl, OfKind,
           HeededAt, RedirectsAreKnown;
      var session := new DownloadSession(env, Options(limits.maxRedirects, limits.maxBytes, respectRobots, userAgent));
      r := session.Run(value, conditional);
      d := Some(session);
      if respectRobots {
        PagesAreHeeded(session, value, conditional, r);
      } else {
        NothingAskedOfRobots(session, value, conditional, r);
      }
      if r.Ok? {
        AccountedBody(session, value, conditional, r);
      }
    }
  }

  // The origin's robots file had been asked for before the k-th exchange; its final answer was that
  // there is none, or a file whose lines permit the path to this crawler.
  ghost predicate HeededAt(env: Environment, userAgent: string, f: Fetch, url: string, k: nat) {
    && f.origin == env.originOf(url) && f.start + |f.hops| <= k && f.hops != [] && f.hops[|f.hops| - 1].result.Ok?
    && var answer := f.hops[|f.hops| - 1].result.value;
       || answer.status == 404
       || (&& (answer.status == 304 || 200 <= answer.status < 300)
           && var path := (if env.pathnameOf(url) == "" then "/" else env.pathnameOf(url)) + env.searchOf(url);
              FilePermits(Directives(env.decode(answer.body)), ProductToken(userAgent), path))
  }

  lemma PagesAreHeeded(session: DownloadSession, value: string, conditional: bool, r: Result<Downloaded>)
    requires session.Accounts(value, conditional, r) && session.options.respectRobots
    ensures forall k :: 0 <= k < |session.log| && session.log[k].isPage
                        && session.env.pathnameOf(session.log[k].approval.value) != "/robots.txt" ==>
              exists j :: 0 <= j < |session.fetches|
                          && HeededAt(session.env, session.options.userAgent, session.fetches[j], session.log[k].approval.value, k)
  {
    hide Charged, Ascending, Completed, Explained, ExplainedByRobots, ChainOf, FetchSound, ExchangeSound, Cached, HeededAt, Permits;
    forall k | 0 <= k < |session.log| && session.log[k].isPage
               && session.env.pathnameOf(session.log[k].approval.value) != "/robots.txt"
      ensures exists j :: 0 <= j < |session.fetches|
                          && HeededAt(session.env, session.options.userAgent, session.fetches[j], session.log[k].approval.value, k)
    {
      var url := session.log[k].approval.value;
      assert PermittedAt(session.env, session.options, session.log, session.fetches, k);
      var j :| 0 <= j < |session.fetches| && session.fetches[j].start + |session.fetches[j].hops| <= k
               && Permits(session.env, session.options, session.fetches[j], url);
      PermittedIsHeeded(session.env, session.options, session.fetches[j], url, k);
    }
  }

  lemma PermittedIsHeeded(env: Environment, options: Options, f: Fetch, url: string, k: nat)
    requires Permits(env, options, f, url) && f.start + |f.hops| <= k
    ensures HeededAt(env, options.userAgent, f, url, k)
  {
  }

  lemma NothingAskedOfRobots(session: DownloadSession, value: string, conditional: bool, r: Result<Downloaded>)
    requires session.Accounts(value, conditional, r) && !session.options.respectRobots
    ensures session.fetches == [] && forall k :: 0 <= k < |session.log| ==> session.log[k].isPage
  {
    hide Records, Charged, Ascending, Completed, Explained, ExplainedByRobots, ChainOf, Connections;
    AllPages(session.log);
  }

  lemma {:induction false} AllPages(log: seq<Exchange>)
    requires OfKind(log, false) == []
    ensures forall k :: 0 <= k < |log| ==> log[k].isPage
    decreases |log|
  {
    if log != [] {
      AllPages(log[..|log| - 1]);
    }
  }

  predicate RedirectsAreKnown(chain: seq<Redirect>) {
    forall i :: 0 <= i < |chain| ==>
      && 300 <= chain[i].status < 400 && chain[i].status != 304
      && (chain[i].permanent <==> chain[i].status == 301 || chain[i].status == 308)
  }

  lemma AccountedBody(session: DownloadSession, value: string, conditional: bool, r: Result<Downloaded>)
    requires session.Accounts(value, conditional, r) && r.Ok?
    ensures r.value.status == 304 || 200 <= r.value.status < 300
    ensures |r.value.body| <= session.options.maxBytes && RedirectsAreKnown(r.value.redirectChain)
  {
    hide PermittedAt, FetchSound, ExchangeSound, Cached, Charged, Ascending, Completed;
    BodyWasPaidFor(session.env, session.log, session.connections, session.options.maxBytes, session.remainingBytes, value, r.value);
  }

  lemma {:induction false} LogHolds(log: seq<Exchange>, e: Exchange)
    requires e in OfKind(log, true)
    ensures e in log
    decreases |log|
  {
    var last := |log| - 1;
    if e != log[last] {
      LogHolds(log[..last], e);
    }
  }

  lemma {:induction false} ConnectionsHold(log: seq<Exchange>, e: Exchange, c: Connection)
    requires e in log && c in e.attempts
    ensures c in Connections(log)
    decreases |log|
  {
    var last := |log| - 1;
    if e != log[last] {
      assert log == log[..last] + [log[last]];
      ConnectionsHold(log[..last], e, c);
    }
  }

  lemma {:induction false} NeverMoreThanTheBudget(env: Environment, cs: seq<Connection>, maxBytes: nat, remaining: nat, c: Connection)
    requires Charged(env, cs, maxBytes, remaining) && c in cs
    ensures remaining <= maxBytes && c.remaining <= maxBytes
    decreases |cs|
  {
    var last := |cs| - 1;
    BudgetIsShared(env, cs[..last], maxBytes, cs[last].remaining);
    if c != cs[last] {
      assert cs == cs[..last] + [cs[last]];
      NeverMoreThanTheBudget(env, cs[..last], maxBytes, cs[last].remaining, c);
    }
  }

  lemma BodyFits(env: Environment, e: Exchange)
    requires ExchangeSound(env, e) && e.result.Ok?
    ensures e.attempts != [] && |e.result.value.body| <= e.attempts[|e.attempts| - 1].remaining
  {
  }

  lemma BodyWasPaidFor(env: Environment, log: seq<Exchange>, cs: seq<Connection>, maxBytes: nat, remaining: nat,
                       first: string, d: Downloaded)
    requires Completed(env, OfKind(log, true), first, d.redirectChain, d)
    requires forall k :: 0 <= k < |log| ==> ExchangeSound(env, log[k])
    requires cs == Connections(log) && Charged(env, cs, maxBytes, remaining)
    ensures d.status == 304 || 200 <= d.status < 300
    ensures |d.body| <= maxBytes && RedirectsAreKnown(d.redirectChain)
  {
    hide Charged, ExchangeSound;
    var hops := OfKind(log, true);
    var e := hops[|d.redirectChain|];
    LogHolds(log, e);
    BodyFits(env, e);
    ConnectionsHold(log, e, e.attempts[|e.attempts| - 1]);
    NeverMoreThanTheBudget(env, cs, maxBytes, remaining, e.attempts[|e.attempts| - 1]);
  }

  // The connections are those of the exchanges, in order and each a different interaction; the bytes
  // kept over all of them, whatever became of them, and the bytes left are the budget.
  predicate BytesAccounted(env: Environment, log: seq<Exchange>, connections: seq<Connection>, clock: nat, maxBytes: nat, remaining: nat) {
    && connections == Connections(log) && Ascending(connections, clock)
    && Charged(env, connections, maxBytes, remaining) && TotalCost(env, connections) + remaining == maxBytes
  }

  lemma NothingTried(env: Environment, approved: Approved)
    ensures AllFailed(env, approved, [])
    ensures approved.addresses == [] ==> Tried(env, approved, [], Err(UrlSecurity))
  {
  }
}
