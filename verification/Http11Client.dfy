/**
 The client object: its methods and completion callbacks change its fields as the machine `HttpClients` says. What that
 means for a request is in the contracts of `AsyncRequest`, `OnCompletion` and `Serve`.
 */
module Http11Clients {

  import opened HttpClients
  import opened HttpReplies
  import opened Options

  class Http11Client {

    var keepAlive: bool
    var tlsReady: bool
    var cached: Option<Conn>

    /** The asynchronous operation under way, and the calls of the current request's handler. */
    var phase: Phase
    var replies: seq<Reply>

    /** The streams opened so far. */
    var connected: seq<Stream>

    ghost var exchanges: map<nat, Exchange>
    ghost var written: seq<Written>
    ghost var targets: seq<nat>
    ghost var freshStarts: nat

    ghost function View(): Client
      reads this
    {
      Client(keepAlive, tlsReady, cached, phase, connected, exchanges, written, targets, freshStarts, replies)
    }

    /** The last request submitted, if any. */
    ghost var current: Option<Request>

    /** No connection is misused, and the current request keeps its bounds: one reply, two streams, one retry. */
    ghost predicate Valid()
      reads this
    {
      && Sound(View())
      && (current.None? ==> phase.Idle?)
      && (current.Some? ==> Underway(View(), current.value))
    }

    constructor (keepAlive: bool, tlsReady: bool)
      ensures Valid()
      ensures View() == New(keepAlive, tlsReady)
    {
      this.keepAlive, this.tlsReady, cached, phase, replies := keepAlive, tlsReady, None, Idle, [];
      connected, exchanges, written, targets, freshStarts, current := [], map[], [], [], 0, None;
    }

    method Handle(error: Error, status: nat)
      modifies this
      ensures current == old(current)
      ensures View() == Answer(old(View()), error, status)
    {
      phase := Idle;
      replies := replies + [Reply(error, status)];
    }

    method DropConnection(conn: Conn)
      modifies this
      ensures current == old(current)
      ensures View() == DropCached(old(View()), conn)
    {
      if cached == Some(conn) {
        cached := None;
      }
    }

    ghost method Note(id: nat, x: Exchange)
      modifies this`exchanges
      ensures View() == Mark(old(View()), id, x)
    {
      exchanges := exchanges[id := x];
    }

    method Write(req: Request, conn: Conn, reused: bool)
      modifies this
      ensures current == old(current)
      ensures View() == StartWrite(old(View()), req, conn, reused)
    {
      phase := Writing(req, conn, reused);
      written := written + [Written(conn.id, req, if conn.id in exchanges then Some(exchanges[conn.id]) else None)];
      targets := targets + [conn.id];
      exchanges := exchanges[conn.id := Open];
    }

    method RequestFresh(req: Request)
      modifies this
      ensures current == old(current)
      ensures View() == StartFresh(old(View()), req)
    {
      freshStarts := freshStarts + 1;
      if !req.verbKnown {
        Handle(InvalidMethod, 0);
      } else {
        phase := Resolving(req);
      }
    }

    method RequestOnCached(req: Request, conn: Conn, dead: bool)
      modifies this
      ensures current == old(current)
      ensures View() == OnCached(old(View()), req, conn, dead)
    {
      if !req.verbKnown {
        Handle(InvalidMethod, 0);
      } else if dead {
        DropConnection(conn);
        RequestFresh(req);
      } else {
        Write(req, conn, true);
      }
    }

    /**
     Serial use: nothing is pending. `dead` is what the peek at a cached connection finds. The handler has fired, once,
     exactly if nothing is pending now; at most seven completions are to come.
     */
    method AsyncRequest(req: Request, dead: bool)
      requires Valid() && phase.Idle?
      modifies this
      ensures Valid() && current == Some(req)
      ensures View() == Submit(old(View()), req, dead)
      ensures |replies| == (if phase.Idle? then 1 else 0) && Rank(phase) <= 7
    {
      SubmitSound(View(), req, dead);
      SubmitUnderway(View(), req, dead);
      Start(req, dead);
    }

    method Start(req: Request, dead: bool)
      modifies this
      ensures current == Some(req) && View() == Submit(old(View()), req, dead)
    {
      targets, freshStarts, current := [], 0, Some(req);
      replies := [];
      if req.endpoint.tls && !tlsReady {
        Handle(TlsVerifyFailed, 0);
      } else if keepAlive && cached.Some? && cached.value.endpoint == req.endpoint {
        RequestOnCached(req, cached.value, dead);
      } else {
        RequestFresh(req);
      }
    }

    method SwitchKeepAlive(on: bool)
      requires Valid()
      modifies this
      ensures Valid() && current == old(current)
      ensures keepAlive == on && cached == if on then old(cached) else None
      ensures View() == SetKeepAlive(old(View()), on)
    {
      keepAlive := on;
      if !on {
        cached := None;
      }
    }

    method OnResolved(req: Request, o: Outcome)
      modifies this
      ensures current == old(current)
      ensures View() == Resolved(old(View()), req, o)
    {
      if o.failure.Some? {
        Handle(if o.failure == Some(HostNotFound) then DnsFailure else ConnectionRefused, 0);
      } else {
        phase := Connecting(req);
      }
    }

    method OnConnected(req: Request, o: Outcome)
      modifies this
      ensures current == old(current)
      ensures View() == Connected(old(View()), req, o)
    {
      if o.failure.Some? {
        Handle(if o.failure == Some(TimedOut) then ConnectionTimeout else ConnectionRefused, 0);
        return;
      }
      var conn := Conn(|connected|, req.endpoint);
      connected := connected + [Stream(req.endpoint, false)];
      if !req.endpoint.tls {
        Write(req, conn, false);
      } else if !o.nameSet {
        Handle(TlsHandshakeFailed, 0);
      } else {
        phase := Handshaking(req, conn);
      }
    }

    method OnHandshake(req: Request, conn: Conn, o: Outcome)
      modifies this
      ensures current == old(current)
      ensures View() == Secured(old(View()), req, conn, o)
    {
      if o.failure.Some? {
        Handle(TlsHandshakeFailed, 0);
      } else {
        if conn.id < |connected| {
          connected := connected[conn.id := connected[conn.id].(secured := true)];
        }
        Write(req, conn, false);
      }
    }

    method OnWritten(req: Request, conn: Conn, reused: bool, o: Outcome)
      modifies this
      ensures current == old(current)
      ensures View() == Wrote(old(View()), req, conn, reused, o)
    {
      if o.failure == None {
        phase := Reading(req, conn, reused);
        return;
      }
      Note(conn.id, Broken);
      if reused {
        DropConnection(conn);
        if Idempotent(req.verb) {
          RequestFresh(req);
          return;
        }
      }
      Handle(WriteError, 0);
    }

    method OnRead(req: Request, conn: Conn, reused: bool, o: Outcome)
      modifies this
      ensures current == old(current)
      ensures View() == Read(old(View()), req, conn, reused, o)
    {
      var error, status := ErrorOf(o), StatusOf(o);
      Note(conn.id, if o.failure == None then Clean(keepAlive) else Broken);
      if reused {
        if o.failure.Some? {
          DropConnection(conn);
          if o.failure != Some(TimedOut) && status == 0 && Idempotent(req.verb) {
            RequestFresh(req);
            return;
          }
        }
      } else if keepAlive && o.failure == None {
        cached := Some(conn);
      }
      Handle(error, status);
    }

    /** The pending operation completes and its callback runs: the request comes nearer to its one reply. */
    method OnCompletion(o: Outcome)
      requires Valid() && !phase.Idle?
      modifies this
      ensures Valid() && current == old(current)
      ensures View() == Complete(old(View()), o)
      ensures |replies| == (if phase.Idle? then 1 else 0) && Rank(phase) < Rank(old(phase))
    {
      StepSound(View(), Completion(o));
      CompleteUnderway(View(), current.value, o);
      match phase
      case Resolving(req) => OnResolved(req, o);
      case Connecting(req) => OnConnected(req, o);
      case Handshaking(req, conn) => OnHandshake(req, conn, o);
      case Writing(req, conn, reused) => OnWritten(req, conn, reused, o);
      case Reading(req, conn, reused) => OnRead(req, conn, reused, o);
    }

    /** Submits a request and lets its operations complete, with these outcomes, until the handler has fired. */
    method Drive(req: Request, dead: bool, outcomes: nat -> Outcome) returns (seen: seq<Outcome>)
      requires Valid() && phase.Idle?
      modifies this
      ensures Valid() && current == Some(req) && phase.Idle?
      ensures |seen| <= 7 && forall i :: 0 <= i < |seen| ==> seen[i] == outcomes(i)
      ensures View() == CompleteAll(Submit(old(View()), req, dead), seen)
      ensures Exact(Submit(old(View()), req, dead), seen)
    {
      ghost var begun := Submit(View(), req, dead);
      AsyncRequest(req, dead);
      seen := [];
      while !phase.Idle?
        invariant Valid() && current == Some(req) && View() == CompleteAll(begun, seen)
        invariant |seen| + Rank(phase) <= 7 && forall i :: 0 <= i < |seen| ==> seen[i] == outcomes(i)
        invariant phase.Idle? ==> Exact(begun, seen)
        decreases Rank(phase)
      {
        var o := outcomes(|seen|);
        CompleteAllSnoc(begun, seen, o);
        assert (seen + [o])[..|seen|] == seen && (seen + [o])[..|seen| + 1] == seen + [o];
        seen := seen + [o];
        OnCompletion(o);
      }
    }

    /**
     A request to its end, as a worker makes it: submitted, then driven by completions, whatever their outcomes, until
     the handler has fired. That takes at most seven; the request is written to at most two streams, one if it is not
     idempotent, and each write is to a stream of its endpoint that is new or clean. The stream is kept exactly if the
     request ended by a read without failure under keep-alive.
     */
    method Serve(req: Request, dead: bool, outcomes: nat -> Outcome) returns (seen: seq<Outcome>)
      requires Valid() && phase.Idle?
      modifies this
      ensures Valid() && phase.Idle? && |replies| == 1
      ensures |seen| <= 7 && forall i :: 0 <= i < |seen| ==> seen[i] == outcomes(i)
      ensures View() == CompleteAll(Submit(old(View()), req, dead), seen)
      ensures |targets| <= 2 && (!Idempotent(req.verb) ==> |targets| <= 1) && freshStarts <= 1
      ensures WritesOk(connected, written) && CachedRight(View(), req, seen)
    {
      ghost var before := View();
      seen := Drive(req, dead, outcomes);
      CachedAfter(before, req, dead, seen);
    }
  }
}
