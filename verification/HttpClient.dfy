/**
 The HTTP/1.1 client under serial use: keep-alive reuse, fallback to a fresh connection, and the retry rules of
 section 6.3.1 of RFC 7230 for the idempotent methods of section 9.2.2 of RFC 9110.

 Each asynchronous operation is pending until the environment completes it, with any outcome. A completion callback
 of the source is one step of the machine.
 */
module HttpClients {

  import opened Options

  datatype Endpoint = Endpoint(host: string, port: nat, tls: bool)

  /** `verbKnown` is the library's verdict on the method string. */
  datatype Request = Request(verb: string, endpoint: Endpoint, verbKnown: bool)

  predicate Idempotent(verb: string) {
    verb == "GET" || verb == "HEAD" || verb == "PUT" || verb == "DELETE" || verb == "OPTIONS" || verb == "TRACE"
  }

  /** The methods of section 9.2.1 of RFC 9110 that are safe. */
  const SAFE: set<string> := {"GET", "HEAD", "OPTIONS", "TRACE"}

  /** By section 9.2.2 of RFC 9110 the idempotent methods are the safe ones, PUT and DELETE; POST and PATCH are not. */
  lemma IdempotentMethods(verb: string)
    ensures Idempotent(verb) <==> verb in SAFE || verb == "PUT" || verb == "DELETE"
    ensures verb == "POST" || verb == "PATCH" || verb == "CONNECT" ==> !Idempotent(verb)
  {
  }

  /** What a stream was connected for, and whether a TLS handshake has been completed on it. */
  datatype Stream = Stream(endpoint: Endpoint, secured: bool)

  /** A stream as the client holds it, numbered in the order of connecting. */
  datatype Conn = Conn(id: nat, endpoint: Endpoint)

  datatype Error =
    | NoError | DnsFailure | ConnectionRefused | ConnectionTimeout
    | TlsVerifyFailed | TlsHandshakeFailed | WriteError | ReadError | InvalidMethod

  datatype Failure = TimedOut | HostNotFound | EndOfStream | OtherFailure

  /** How an operation ends; `status` is what a read has parsed by then, or whatever stands there. */
  datatype Outcome = Outcome(failure: Option<Failure>, status: nat, nameSet: bool)

  datatype Phase =
    | Idle
    | Resolving(req: Request)
    | Connecting(req: Request)
    | Handshaking(req: Request, conn: Conn)
    | Writing(req: Request, conn: Conn, reused: bool)
    | Reading(req: Request, conn: Conn, reused: bool)

  /** The last exchange on a stream. */
  datatype Exchange = Open | Clean(keepAlive: bool) | Broken

  datatype Written = Written(id: nat, req: Request, before: Option<Exchange>)

  datatype Reply = Reply(error: Error, status: nat)

  /**
   `keepAlive`, `cached` and `phase` are the client. The rest is history: how many streams were connected and for
   what, the last exchange on each, every write that was started; and, for the current request, the streams it was
   written to, how often a fresh connection was started for it, and the replies its handler got.
   */
  datatype Client = Client(
    keepAlive: bool,
    tlsReady: bool,
    cached: Option<Conn>,
    phase: Phase,
    connected: seq<Stream>,
    exchanges: map<nat, Exchange>,
    written: seq<Written>,
    targets: seq<nat>,
    freshStarts: nat,
    replies: seq<Reply>)

  function New(keepAlive: bool, tlsReady: bool): Client {
    Client(keepAlive, tlsReady, None, Idle, [], map[], [], [], 0, [])
  }

  function Answer(c: Client, error: Error, status: nat): Client {
    c.(phase := Idle, replies := c.replies + [Reply(error, status)])
  }

  function DropCached(c: Client, conn: Conn): Client {
    if c.cached == Some(conn) then c.(cached := None) else c
  }

  function Mark(c: Client, id: nat, x: Exchange): Client {
    c.(exchanges := c.exchanges[id := x])
  }

  function StartWrite(c: Client, req: Request, conn: Conn, reused: bool): Client {
    var before := if conn.id in c.exchanges then Some(c.exchanges[conn.id]) else None;
    Mark(c, conn.id, Open).(
      phase := Writing(req, conn, reused),
      written := c.written + [Written(conn.id, req, before)],
      targets := c.targets + [conn.id])
  }

  function StartFresh(c: Client, req: Request): Client {
    var started := c.(freshStarts := c.freshStarts + 1);
    if !req.verbKnown then Answer(started, InvalidMethod, 0) else started.(phase := Resolving(req))
  }

  function OnCached(c: Client, req: Request, conn: Conn, dead: bool): Client {
    if !req.verbKnown then Answer(c, InvalidMethod, 0)
    else if dead then StartFresh(DropCached(c, conn), req)
    else StartWrite(c, req, conn, true)
  }

  /** `async_request`; `dead` is what the peek at a cached connection finds. */
  function Submit(c: Client, req: Request, dead: bool): Client {
    var begun := c.(targets := [], freshStarts := 0, replies := []);
    if req.endpoint.tls && !c.tlsReady then Answer(begun, TlsVerifyFailed, 0)
    else if c.keepAlive && c.cached.Some? && c.cached.value.endpoint == req.endpoint then
      OnCached(begun, req, c.cached.value, dead)
    else StartFresh(begun, req)
  }

  /** The status that a response carries after its read ended this way. */
  function StatusOf(o: Outcome): nat {
    if o.failure == None || o.failure == Some(EndOfStream) then o.status else 0
  }

  function ErrorOf(o: Outcome): Error {
    if o.failure == None || o.failure == Some(EndOfStream) then NoError else ReadError
  }

  function Resolved(c: Client, req: Request, o: Outcome): Client {
    if o.failure.Some? then
      Answer(c, if o.failure == Some(HostNotFound) then DnsFailure else ConnectionRefused, 0)
    else
      c.(phase := Connecting(req))
  }

  function Connected(c: Client, req: Request, o: Outcome): Client {
    if o.failure.Some? then
      Answer(c, if o.failure == Some(TimedOut) then ConnectionTimeout else ConnectionRefused, 0)
    else
      var conn := Conn(|c.connected|, req.endpoint);
      var open := c.(connected := c.connected + [Stream(req.endpoint, false)]);
      if !req.endpoint.tls then StartWrite(open, req, conn, false)
      else if !o.nameSet then Answer(open, TlsHandshakeFailed, 0)
      else open.(phase := Handshaking(req, conn))
  }

  function Shaken(connected: seq<Stream>, id: nat): seq<Stream> {
    if id < |connected| then connected[id := connected[id].(secured := true)] else connected
  }

  function Secured(c: Client, req: Request, conn: Conn, o: Outcome): Client {
    if o.failure.Some? then Answer(c, TlsHandshakeFailed, 0)
    else StartWrite(c.(connected := Shaken(c.connected, conn.id)), req, conn, false)
  }

  function Wrote(c: Client, req: Request, conn: Conn, reused: bool, o: Outcome): Client {
    if o.failure == None then c.(phase := Reading(req, conn, reused))
    else
      var broken := Mark(c, conn.id, Broken);
      if !reused then Answer(broken, WriteError, 0)
      else if Idempotent(req.verb) then StartFresh(DropCached(broken, conn), req)
      else Answer(DropCached(broken, conn), WriteError, 0)
  }

  function Read(c: Client, req: Request, conn: Conn, reused: bool, o: Outcome): Client {
    var seen := Mark(c, conn.id, if o.failure == None then Clean(c.keepAlive) else Broken);
    if !reused then
      var kept := if c.keepAlive && o.failure == None then seen.(cached := Some(conn)) else seen;
      Answer(kept, ErrorOf(o), StatusOf(o))
    else if o.failure == None then
      Answer(seen, ErrorOf(o), StatusOf(o))
    else if o.failure != Some(TimedOut) && StatusOf(o) == 0 && Idempotent(req.verb) then
      StartFresh(DropCached(seen, conn), req)
    else
      Answer(DropCached(seen, conn), ErrorOf(o), StatusOf(o))
  }

  /** The pending operation completes. */
  function Complete(c: Client, o: Outcome): Client {
    match c.phase
    case Idle => c
    case Resolving(req) => Resolved(c, req, o)
    case Connecting(req) => Connected(c, req, o)
    case Handshaking(req, conn) => Secured(c, req, conn, o)
    case Writing(req, conn, reused) => Wrote(c, req, conn, reused, o)
    case Reading(req, conn, reused) => Read(c, req, conn, reused, o)
  }

  function SetKeepAlive(c: Client, on: bool): Client {
    c.(keepAlive := on, cached := if on then c.cached else None)
  }

  datatype Event =
    | Send(req: Request, dead: bool)
    | Completion(outcome: Outcome)
    | KeepAlive(on: bool)

  /** Serial use: a request is submitted only when the one before it has been answered. */
  function Step(c: Client, e: Event): Client {
    match e
    case Send(req, dead) => if c.phase.Idle? then Submit(c, req, dead) else c
    case Completion(o) => Complete(c, o)
    case KeepAlive(on) => SetKeepAlive(c, on)
  }

  function Run(c: Client, events: seq<Event>): Client
    decreases |events|
  {
    if events == [] then c else Run(Step(c, events[0]), events[1..])
  }

  // ----- One request

  /** An upper bound on the completions still to come. */
  function Rank(p: Phase): nat {
    match p
    case Idle => 0
    case Resolving(_) => 5
    case Connecting(_) => 4
    case Handshaking(_, _) => 3
    case Writing(_, _, reused) => if reused then 7 else 2
    case Reading(_, _, reused) => if reused then 6 else 1
  }

  /** The pending operation belongs to a fresh connection. */
  predicate OnFresh(p: Phase) {
    p.Resolving? || p.Connecting? || p.Handshaking? || ((p.Writing? || p.Reading?) && !p.reused)
  }

  predicate OnReused(p: Phase) {
    (p.Writing? || p.Reading?) && p.reused
  }

  /** What holds of a request from its submission on, whatever has completed so far and however. */
  ghost predicate Underway(c: Client, req: Request) {
    && |c.replies| == (if c.phase.Idle? then 1 else 0)
    && (!c.phase.Idle? ==> c.phase.req == req && req.verbKnown && (req.endpoint.tls ==> c.tlsReady))
    && c.freshStarts <= 1
    && (OnFresh(c.phase) ==> c.freshStarts == 1)
    && (OnReused(c.phase) ==> c.freshStarts == 0 && |c.targets| == 1)
    && |c.targets| <= 2
    && (!Idempotent(req.verb) ==> |c.targets| <= 1)
    && (c.phase.Writing? || c.phase.Reading? ==> c.targets != [])
    && (c.phase.Resolving? || c.phase.Connecting? || c.phase.Handshaking? ==>
          |c.targets| <= 1 && (!Idempotent(req.verb) ==> |c.targets| == 0))
  }

  lemma SubmitUnderway(c: Client, req: Request, dead: bool)
    ensures Underway(Submit(c, req, dead), req)
  {
  }

  lemma ConnectUnderway(c: Client, req: Request, o: Outcome)
    requires Underway(c, req) && (c.phase.Resolving? || c.phase.Connecting? || c.phase.Handshaking?)
    ensures Underway(Complete(c, o), req)
    ensures Rank(Complete(c, o).phase) < Rank(c.phase)
  {
  }

  lemma FreshUnderway(c: Client, req: Request, o: Outcome)
    requires Underway(c, req) && (c.phase.Writing? || c.phase.Reading?) && !c.phase.reused
    ensures Underway(Complete(c, o), req)
    ensures Rank(Complete(c, o).phase) < Rank(c.phase)
  {
  }

  lemma ReusedUnderway(c: Client, req: Request, o: Outcome)
    requires Underway(c, req) && OnReused(c.phase)
    ensures Underway(Complete(c, o), req)
    ensures Rank(Complete(c, o).phase) < Rank(c.phase)
  {
  }

  lemma CompleteUnderway(c: Client, req: Request, o: Outcome)
    requires Underway(c, req)
    ensures Underway(Complete(c, o), req)
    ensures !c.phase.Idle? ==> Rank(Complete(c, o).phase) < Rank(c.phase)
  {
    match c.phase
    case Idle =>
    case Resolving(_) => ConnectUnderway(c, req, o);
    case Connecting(_) => ConnectUnderway(c, req, o);
    case Handshaking(_, _) => ConnectUnderway(c, req, o);
    case Writing(_, _, reused) => if reused { ReusedUnderway(c, req, o); } else { FreshUnderway(c, req, o); }
    case Reading(_, _, reused) => if reused { ReusedUnderway(c, req, o); } else { FreshUnderway(c, req, o); }
  }

  function CompleteAll(c: Client, outcomes: seq<Outcome>): Client
    decreases |outcomes|
  {
    if outcomes == [] then c else CompleteAll(Complete(c, outcomes[0]), outcomes[1..])
  }

  lemma {:induction false} CompleteAllSnoc(c: Client, outcomes: seq<Outcome>, o: Outcome)
    ensures CompleteAll(c, outcomes + [o]) == Complete(CompleteAll(c, outcomes), o)
    decreases |outcomes|
  {
    if outcomes == [] {
      assert CompleteAll(Complete(c, o), []) == Complete(c, o);
    } else {
      assert (outcomes + [o])[1..] == outcomes[1..] + [o];
      CompleteAllSnoc(Complete(c, outcomes[0]), outcomes[1..], o);
    }
  }

  lemma {:induction false} CompleteAllUnderway(c: Client, req: Request, outcomes: seq<Outcome>)
    requires Underway(c, req)
    ensures Underway(CompleteAll(c, outcomes), req)
    ensures Rank(CompleteAll(c, outcomes).phase) + |outcomes| <= Rank(c.phase) ||
            CompleteAll(c, outcomes).phase.Idle?
    decreases |outcomes|
  {
    if outcomes != [] {
      CompleteUnderway(c, req, outcomes[0]);
      CompleteAllUnderway(Complete(c, outcomes[0]), req, outcomes[1..]);
    }
  }

  /**
   For every sequence of I/O outcomes: the handler has fired exactly once if nothing is pending any more and not yet
   otherwise, and seven completions always suffice; a request is written to at most two streams, one that is not
   idempotent to at most one; and at most one fresh connection is started for it, so a retry is never retried.
   */
  lemma RequestTheorem(c: Client, req: Request, dead: bool, outcomes: seq<Outcome>)
    ensures var d := CompleteAll(Submit(c, req, dead), outcomes);
            && |d.replies| == (if d.phase.Idle? then 1 else 0)
            && (|outcomes| >= 7 ==> d.phase.Idle?)
            && |d.targets| <= 2 && (!Idempotent(req.verb) ==> |d.targets| <= 1)
            && d.freshStarts <= 1
  {
    SubmitUnderway(c, req, dead);
    CompleteAllUnderway(Submit(c, req, dead), req, outcomes);
  }

  // ----- Any sequence of requests

  /** The stream is one to this endpoint, secured exactly if that asks for it. */
  predicate Serves(connected: seq<Stream>, conn: Conn) {
    conn.id < |connected| && connected[conn.id] == Stream(conn.endpoint, conn.endpoint.tls)
  }

  /** The stream was connected for the request's endpoint, secured if need be; it was new, or last ended well. */
  predicate WriteOk(connected: seq<Stream>, w: Written) {
    && w.id < |connected| && connected[w.id] == Stream(w.req.endpoint, w.req.endpoint.tls)
    && (w.before == None || w.before == Some(Clean(true)))
  }

  ghost predicate WritesOk(connected: seq<Stream>, written: seq<Written>) {
    forall i :: 0 <= i < |written| ==> WriteOk(connected, written[i])
  }

  ghost predicate Known(exchanges: map<nat, Exchange>, n: nat) {
    forall id :: id in exchanges ==> id < n
  }

  predicate Last(exchanges: map<nat, Exchange>, id: nat, x: Exchange) {
    id in exchanges && exchanges[id] == x
  }

  predicate PhaseOk(c: Client) {
    match c.phase
    case Idle => true
    case Resolving(_) => true
    case Connecting(_) => true
    case Handshaking(req, conn) =>
      && conn.id < |c.connected| && c.connected[conn.id] == Stream(conn.endpoint, false) && conn.endpoint.tls
      && conn.endpoint == req.endpoint && conn.id !in c.exchanges
    case Writing(req, conn, reused) => UseOk(c, req, conn, reused)
    case Reading(req, conn, reused) => UseOk(c, req, conn, reused)
  }

  predicate UseOk(c: Client, req: Request, conn: Conn, reused: bool) {
    && Serves(c.connected, conn) && conn.endpoint == req.endpoint && Last(c.exchanges, conn.id, Open)
    && (c.cached.Some? ==> if reused then c.cached.value == conn else c.cached.value.id != conn.id)
  }

  predicate CachedOk(c: Client) {
    c.cached.Some? ==>
      && c.keepAlive && Serves(c.connected, c.cached.value)
      && (OnReused(c.phase) || Last(c.exchanges, c.cached.value.id, Clean(true)))
  }

  ghost predicate Sound(c: Client) {
    && WritesOk(c.connected, c.written) && Known(c.exchanges, |c.connected|)
    && PhaseOk(c) && CachedOk(c)
  }

  /** Between operations: the cached connection, if any, is not in use. */
  ghost predicate Settled(c: Client) {
    && WritesOk(c.connected, c.written) && Known(c.exchanges, |c.connected|)
    && (c.cached.Some? ==>
          c.keepAlive && Serves(c.connected, c.cached.value) && Last(c.exchanges, c.cached.value.id, Clean(true)))
  }

  lemma AnswerSound(c: Client, error: Error, status: nat)
    requires Settled(c)
    ensures Sound(Answer(c, error, status))
  {
  }

  lemma StartFreshSound(c: Client, req: Request)
    requires Settled(c)
    ensures Sound(StartFresh(c, req))
  {
  }

  lemma StartWriteSound(c: Client, req: Request, conn: Conn, reused: bool)
    requires Settled(c) && Serves(c.connected, conn) && conn.endpoint == req.endpoint
    requires if reused then c.cached == Some(conn) else conn.id !in c.exchanges
    ensures Sound(StartWrite(c, req, conn, reused))
  {
    var before := if conn.id in c.exchanges then Some(c.exchanges[conn.id]) else None;
    assert WriteOk(c.connected, Written(conn.id, req, before));
  }

  /** A connection that failed leaves the cache. */
  lemma BrokenSettled(c: Client, conn: Conn, reused: bool)
    requires Sound(c) && (c.phase.Writing? || c.phase.Reading?)
    requires c.phase.conn == conn && c.phase.reused == reused
    ensures Settled(DropCached(Mark(c, conn.id, Broken), conn))
    ensures !reused ==> DropCached(Mark(c, conn.id, Broken), conn) == Mark(c, conn.id, Broken)
  {
  }

  lemma SubmitSound(c: Client, req: Request, dead: bool)
    requires Sound(c) && c.phase.Idle?
    ensures Sound(Submit(c, req, dead))
  {
    var begun := c.(targets := [], freshStarts := 0, replies := []);
    assert Settled(begun);
    if req.endpoint.tls && !c.tlsReady {
      AnswerSound(begun, TlsVerifyFailed, 0);
    } else if c.keepAlive && c.cached.Some? && c.cached.value.endpoint == req.endpoint {
      var conn := c.cached.value;
      if !req.verbKnown {
        AnswerSound(begun, InvalidMethod, 0);
      } else if dead {
        StartFreshSound(DropCached(begun, conn), req);
      } else {
        StartWriteSound(begun, req, conn, true);
      }
    } else {
      StartFreshSound(begun, req);
    }
  }

  lemma ResolvedSound(c: Client, o: Outcome)
    requires Sound(c) && c.phase.Resolving?
    ensures Sound(Complete(c, o))
  {
  }

  lemma ConnectedSound(c: Client, o: Outcome)
    requires Sound(c) && c.phase.Connecting?
    ensures Sound(Complete(c, o))
  {
    var req := c.phase.req;
    if o.failure == None {
      var open := c.(connected := c.connected + [Stream(req.endpoint, false)]);
      assert WritesOk(open.connected, open.written);
      var conn := Conn(|c.connected|, req.endpoint);
      if !req.endpoint.tls {
        StartWriteSound(open, req, conn, false);
      } else if !o.nameSet {
        AnswerSound(open, TlsHandshakeFailed, 0);
      }
    }
  }

  lemma SecuredSound(c: Client, o: Outcome)
    requires Sound(c) && c.phase.Handshaking?
    ensures Sound(Complete(c, o))
  {
    if o.failure == None {
      var conn := c.phase.conn;
      var shaken := c.(connected := Shaken(c.connected, conn.id));
      assert WritesOk(shaken.connected, shaken.written);
      StartWriteSound(shaken, c.phase.req, conn, false);
    }
  }

  lemma WroteSound(c: Client, o: Outcome)
    requires Sound(c) && c.phase.Writing?
    ensures Sound(Complete(c, o))
  {
    var req, conn, reused := c.phase.req, c.phase.conn, c.phase.reused;
    if o.failure.Some? {
      BrokenSettled(c, conn, reused);
      var left := DropCached(Mark(c, conn.id, Broken), conn);
      if reused && Idempotent(req.verb) {
        StartFreshSound(left, req);
      } else {
        AnswerSound(left, WriteError, 0);
      }
    }
  }

  lemma ReadSound(c: Client, o: Outcome)
    requires Sound(c) && c.phase.Reading?
    ensures Sound(Complete(c, o))
  {
    var req, conn, reused := c.phase.req, c.phase.conn, c.phase.reused;
    if o.failure.Some? {
      BrokenSettled(c, conn, reused);
      var left := DropCached(Mark(c, conn.id, Broken), conn);
      if reused && Complete(c, o) == StartFresh(left, req) {
        StartFreshSound(left, req);
      } else {
        AnswerSound(left, ErrorOf(o), StatusOf(o));
      }
    }
  }

  lemma StepSound(c: Client, e: Event)
    requires Sound(c)
    ensures Sound(Step(c, e))
  {
    match e
    case Send(req, dead) => if c.phase.Idle? { SubmitSound(c, req, dead); }
    case KeepAlive(on) =>
    case Completion(o) =>
      match c.phase {
        case Idle =>
        case Writing(_, _, _) => WroteSound(c, o);
        case Reading(_, _, _) => ReadSound(c, o);
        case Resolving(_) => ResolvedSound(c, o);
        case Connecting(_) => ConnectedSound(c, o);
        case Handshaking(_, _) => SecuredSound(c, o);
      }
  }

  lemma {:induction false} RunSound(c: Client, events: seq<Event>)
    requires Sound(c)
    ensures Sound(Run(c, events))
    decreases |events|
  {
    if events != [] {
      StepSound(c, events[0]);
      RunSound(Step(c, events[0]), events[1..]);
    }
  }

  /**
   Over every sequence of requests, completions and changes of the keep-alive setting: a request is written only to a
   stream that was connected for its own host, port and scheme, with a handshake completed exactly for a scheme that
   asks for TLS, and that is new or whose last exchange ended well with
   keep-alive on; and so is the connection that an idle client keeps.
   */
  lemma ReuseTheorem(keepAlive: bool, tlsReady: bool, events: seq<Event>)
    ensures var c := Run(New(keepAlive, tlsReady), events);
            && WritesOk(c.connected, c.written)
            && (c.cached.Some? ==> c.keepAlive && Serves(c.connected, c.cached.value))
            && (c.cached.Some? && c.phase.Idle? ==> Last(c.exchanges, c.cached.value.id, Clean(true)))
  {
    RunSound(New(keepAlive, tlsReady), events);
  }

  function Completions(outcomes: seq<Outcome>): (events: seq<Event>)
    ensures |events| == |outcomes|
  {
    seq(|outcomes|, i requires 0 <= i < |outcomes| => Completion(outcomes[i]))
  }

  lemma {:induction false} CompletionsRun(c: Client, outcomes: seq<Outcome>)
    ensures Run(c, Completions(outcomes)) == CompleteAll(c, outcomes)
    decreases |outcomes|
  {
    if outcomes != [] {
      assert Completions(outcomes)[1..] == Completions(outcomes[1..]);
      CompletionsRun(Complete(c, outcomes[0]), outcomes[1..]);
    }
  }

  /** In a run, a request that is sent to an idle client and its outcomes are what the laws of one request speak of. */
  lemma RequestInRun(c: Client, req: Request, dead: bool, outcomes: seq<Outcome>)
    requires c.phase.Idle?
    ensures Run(c, [Send(req, dead)] + Completions(outcomes)) == CompleteAll(Submit(c, req, dead), outcomes)
  {
    assert ([Send(req, dead)] + Completions(outcomes))[1..] == Completions(outcomes);
    CompletionsRun(Submit(c, req, dead), outcomes);
  }
}
