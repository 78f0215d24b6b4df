/** Whole requests: what the one reply tells the caller, when a connection is reused, when a request is retried. */
module HttpReplies {

  import opened HttpClients
  import opened Options

  // ----- What the reply tells

  /** The error of a connection that was never set up. */
  predicate SetUpError(e: Error) {
    e.DnsFailure? || e.ConnectionRefused? || e.ConnectionTimeout? || e.TlsHandshakeFailed?
  }

  /** The outcome `o` of the operation `p` bears the error out. */
  predicate Fits(e: Error, p: Phase, o: Outcome) {
    match e
    case NoError => p.Reading? && (o.failure == None || o.failure == Some(EndOfStream))
    case DnsFailure => p.Resolving? && o.failure == Some(HostNotFound)
    case ConnectionTimeout => p.Connecting? && o.failure == Some(TimedOut)
    case ConnectionRefused =>
      o.failure.Some? && ((p.Resolving? && o.failure.value != HostNotFound) ||
                          (p.Connecting? && o.failure.value != TimedOut))
    case TlsHandshakeFailed =>
      (p.Handshaking? && o.failure.Some?) || (p.Connecting? && p.req.endpoint.tls && o.failure == None && !o.nameSet)
    case WriteError => p.Writing? && o.failure.Some?
    case ReadError => p.Reading? && o.failure.Some? && o.failure != Some(EndOfStream)
    case TlsVerifyFailed => false
    case InvalidMethod => false
  }

  /**
   What the reply says about the request, given the operation and the outcome it is due to. After an error in setting
   up a connection, a request that is not idempotent has not been sent at all, so that its caller may send it again;
   after any other, it may have been.
   */
  predicate Told(d: Client, req: Request, p: Phase, o: Outcome)
    requires |d.replies| == 1
  {
    var r := d.replies[0];
    && Fits(r.error, p, o) && (r.error == NoError ==> r.status == o.status)
    && (SetUpError(r.error) ==> |d.targets| <= 1 && (!Idempotent(req.verb) ==> d.targets == []))
    && (!SetUpError(r.error) ==> d.targets != [])
  }

  lemma SetUpTold(c: Client, req: Request, o: Outcome)
    requires Underway(c, req) && (c.phase.Resolving? || c.phase.Connecting? || c.phase.Handshaking?)
    requires Complete(c, o).phase.Idle?
    ensures |Complete(c, o).replies| == 1 && Told(Complete(c, o), req, c.phase, o)
  {
  }

  lemma WriteTold(c: Client, req: Request, o: Outcome)
    requires Underway(c, req) && c.phase.Writing? && Complete(c, o).phase.Idle?
    ensures |Complete(c, o).replies| == 1 && Told(Complete(c, o), req, c.phase, o)
  {
  }

  lemma ReadTold(c: Client, req: Request, o: Outcome)
    requires Underway(c, req) && c.phase.Reading? && Complete(c, o).phase.Idle?
    ensures |Complete(c, o).replies| == 1 && Told(Complete(c, o), req, c.phase, o)
  {
  }

  lemma StepTold(c: Client, req: Request, o: Outcome)
    requires Underway(c, req) && !c.phase.Idle? && Complete(c, o).phase.Idle?
    ensures |Complete(c, o).replies| == 1 && Told(Complete(c, o), req, c.phase, o)
  {
    if c.phase.Writing? {
      WriteTold(c, req, o);
    } else if c.phase.Reading? {
      ReadTold(c, req, o);
    } else {
      SetUpTold(c, req, o);
    }
  }

  lemma {:induction false} IdleStays(c: Client, outcomes: seq<Outcome>)
    requires c.phase.Idle?
    ensures CompleteAll(c, outcomes) == c
    decreases |outcomes|
  {
    if outcomes != [] {
      IdleStays(c, outcomes[1..]);
    }
  }

  /** The request is answered at the `k`-th outcome: before it, operation `Before(c, outcomes, k)` is under way. */
  predicate EndsAt(c: Client, outcomes: seq<Outcome>, k: nat) {
    && k < |outcomes|
    && !Before(c, outcomes, k).Idle? && CompleteAll(c, outcomes[..k + 1]).phase.Idle?
  }

  function Before(c: Client, outcomes: seq<Outcome>, k: nat): Phase
    requires k <= |outcomes|
  {
    CompleteAll(c, outcomes[..k]).phase
  }

  lemma OneOutcomeOn(c: Client, outcomes: seq<Outcome>, k: nat)
    requires 0 < k <= |outcomes|
    ensures CompleteAll(c, outcomes[..k]) == CompleteAll(Complete(c, outcomes[0]), outcomes[1..][..k - 1])
  {
    assert outcomes[..k][1..] == outcomes[1..][..k - 1];
  }

  /** A request that is answered is answered at one of the outcomes; the others after it find nothing pending. */
  lemma {:induction false} Ends(c: Client, outcomes: seq<Outcome>) returns (k: nat)
    requires !c.phase.Idle? && CompleteAll(c, outcomes).phase.Idle?
    ensures EndsAt(c, outcomes, k)
    decreases |outcomes|
  {
    var next := Complete(c, outcomes[0]);
    if next.phase.Idle? {
      k := 0;
      OneOutcomeOn(c, outcomes, 1);
    } else {
      k := Ends(next, outcomes[1..]);
      OneOutcomeOn(c, outcomes, k + 1);
      OneOutcomeOn(c, outcomes, k + 2);
      k := k + 1;
    }
  }

  /** From where it ends, the request is done. */
  lemma EndIsFinal(c: Client, outcomes: seq<Outcome>, k: nat)
    requires EndsAt(c, outcomes, k)
    ensures CompleteAll(c, outcomes) == CompleteAll(c, outcomes[..k + 1])
    ensures CompleteAll(c, outcomes) == Complete(CompleteAll(c, outcomes[..k]), outcomes[k])
  {
    CompleteAllJoin(c, outcomes[..k + 1], outcomes[k + 1..]);
    assert outcomes[..k + 1] + outcomes[k + 1..] == outcomes;
    IdleStays(CompleteAll(c, outcomes[..k + 1]), outcomes[k + 1..]);
    CompleteAllSnoc(c, outcomes[..k], outcomes[k]);
    assert outcomes[..k + 1] == outcomes[..k] + [outcomes[k]];
  }

  lemma {:induction false} CompleteAllJoin(c: Client, a: seq<Outcome>, b: seq<Outcome>)
    ensures CompleteAll(c, a + b) == CompleteAll(CompleteAll(c, a), b)
    decreases |a|
  {
    if a == [] {
      assert a + b == b;
    } else {
      assert (a + b)[1..] == a[1..] + b;
      CompleteAllJoin(Complete(c, a[0]), a[1..], b);
    }
  }

  lemma RunTold(c: Client, req: Request, outcomes: seq<Outcome>, k: nat)
    requires Underway(c, req) && EndsAt(c, outcomes, k)
    ensures var d := CompleteAll(c, outcomes);
            |d.replies| == 1 && Told(d, req, Before(c, outcomes, k), outcomes[k])
  {
    CompleteAllUnderway(c, req, outcomes[..k]);
    EndIsFinal(c, outcomes, k);
    StepTold(CompleteAll(c, outcomes[..k]), req, outcomes[k]);
  }

  lemma SubmitTold(c: Client, req: Request, dead: bool)
    ensures var s := Submit(c, req, dead);
            && (s.phase.Idle? <==> (req.endpoint.tls && !c.tlsReady) || !req.verbKnown)
            && (s.phase.Idle? ==>
                  s.replies == [Reply(if req.endpoint.tls && !c.tlsReady then TlsVerifyFailed else InvalidMethod, 0)])
  {
  }

  /**
   For every request and every sequence of I/O outcomes that answers it: the reply names a missing TLS context or an
   unknown method exactly in that case; otherwise it is borne out by the outcome that answers the request and the
   operation that had it, carries the status if there is no error, and tells whether the request can have been sent.
   */
  lemma ReplyTheorem(c: Client, req: Request, dead: bool, outcomes: seq<Outcome>)
    requires CompleteAll(Submit(c, req, dead), outcomes).phase.Idle?
    ensures var d := CompleteAll(Submit(c, req, dead), outcomes);
            && |d.replies| == 1
            && (d.replies[0].error == TlsVerifyFailed <==> req.endpoint.tls && !c.tlsReady)
            && (d.replies[0].error == InvalidMethod <==> (req.endpoint.tls ==> c.tlsReady) && !req.verbKnown)
            && (d.replies[0].error != TlsVerifyFailed && d.replies[0].error != InvalidMethod ==>
                  exists k: nat :: EndsAt(Submit(c, req, dead), outcomes, k) &&
                    Told(d, req, Before(Submit(c, req, dead), outcomes, k), outcomes[k]))
  {
    var s := Submit(c, req, dead);
    SubmitUnderway(c, req, dead);
    SubmitTold(c, req, dead);
    if s.phase.Idle? {
      IdleStays(s, outcomes);
    } else {
      var k := Ends(s, outcomes);
      RunTold(s, req, outcomes, k);
    }
  }

  // ----- When a request is retried

  /** A reused connection turns out stale: its write fails, or its read ends without timeout and without a status. */
  predicate Stale(written: Outcome, read: Outcome) {
    || written.failure.Some?
    || (read.failure.Some? && read.failure != Some(TimedOut) && StatusOf(read) == 0)
  }

  lemma {:induction false} FreshStartsStay(c: Client, req: Request, outcomes: seq<Outcome>)
    requires Underway(c, req) && !OnReused(c.phase)
    ensures CompleteAll(c, outcomes).freshStarts == c.freshStarts
    decreases |outcomes|
  {
    if outcomes != [] {
      CompleteUnderway(c, req, outcomes[0]);
      StaysFresh(c, req, outcomes[0]);
      FreshStartsStay(Complete(c, outcomes[0]), req, outcomes[1..]);
    }
  }

  lemma StaysFresh(c: Client, req: Request, o: Outcome)
    requires Underway(c, req) && !OnReused(c.phase)
    ensures Complete(c, o).freshStarts == c.freshStarts && !OnReused(Complete(c, o).phase)
  {
  }

  lemma ReusedWrite(c: Client, req: Request, o: Outcome)
    requires Underway(c, req) && c.phase.Writing? && c.phase.reused
    ensures var d := Complete(c, o);
            if o.failure == None then d.phase.Reading? && d.phase.reused && d.freshStarts == 0
            else !OnReused(d.phase) && d.freshStarts == if Idempotent(req.verb) then 1 else 0
  {
  }

  lemma ReusedRead(c: Client, req: Request, o: Outcome)
    requires Underway(c, req) && c.phase.Reading? && c.phase.reused
    ensures var d := Complete(c, o);
            && !OnReused(d.phase)
            && d.freshStarts ==
               if o.failure.Some? && o.failure != Some(TimedOut) && StatusOf(o) == 0 && Idempotent(req.verb) then 1
               else 0
  {
  }

  /**
   A request that was written to a reused connection is sent again on a fresh one, at some point of the run, exactly
   when it is idempotent and the connection turns out stale: not after a timeout, nor once a status has come.
   */
  lemma RetryTheorem(c: Client, req: Request, dead: bool, outcomes: seq<Outcome>)
    requires Submit(c, req, dead).phase.Writing? && |outcomes| >= 2
    ensures CompleteAll(Submit(c, req, dead), outcomes).freshStarts == 1 <==>
            Idempotent(req.verb) && Stale(outcomes[0], outcomes[1])
  {
    var s := Submit(c, req, dead);
    SubmitUnderway(c, req, dead);
    var t := Complete(s, outcomes[0]);
    CompleteUnderway(s, req, outcomes[0]);
    ReusedWrite(s, req, outcomes[0]);
    if outcomes[0].failure == None {
      var u := Complete(t, outcomes[1]);
      CompleteUnderway(t, req, outcomes[1]);
      ReusedRead(t, req, outcomes[1]);
      FreshStartsStay(u, req, outcomes[2..]);
      assert outcomes[1..][1..] == outcomes[2..];
    } else {
      FreshStartsStay(t, req, outcomes[1..]);
    }
  }

  // ----- When a connection is reused

  /** The streams that the request was written to begin with `first`; any other was connected for it. */
  ghost predicate TargetsFrom(c: Client, first: seq<nat>, n: nat) {
    && n <= |c.connected| && first <= c.targets
    && (forall i :: |first| <= i < |c.targets| ==> c.targets[i] >= n)
    && (c.phase.Handshaking? ==> c.phase.conn.id >= n)
  }

  lemma WriteTargets(c: Client, first: seq<nat>, n: nat, req: Request, conn: Conn)
    requires n <= |c.connected| && first <= c.targets && conn.id >= n
    requires forall i :: |first| <= i < |c.targets| ==> c.targets[i] >= n
    ensures TargetsFrom(StartWrite(c, req, conn, false), first, n)
  {
  }

  lemma SetUpTargets(c: Client, first: seq<nat>, n: nat, o: Outcome)
    requires TargetsFrom(c, first, n) && (c.phase.Connecting? || c.phase.Handshaking?)
    ensures TargetsFrom(Complete(c, o), first, n)
  {
    var req := c.phase.req;
    if c.phase.Handshaking? {
      WriteTargets(c.(connected := Shaken(c.connected, c.phase.conn.id)), first, n, req, c.phase.conn);
    } else {
      var open := c.(connected := c.connected + [Stream(req.endpoint, false)]);
      WriteTargets(open, first, n, req, Conn(|c.connected|, req.endpoint));
    }
  }

  /** Nothing is written and nothing connected. */
  predicate SameTargets(c: Client, d: Client) {
    d.targets == c.targets && d.connected == c.connected && !d.phase.Handshaking?
  }

  lemma WroteTargets(c: Client, req: Request, conn: Conn, reused: bool, o: Outcome)
    ensures SameTargets(c, Wrote(c, req, conn, reused, o))
  {
  }

  lemma ReadTargets(c: Client, req: Request, conn: Conn, reused: bool, o: Outcome)
    ensures SameTargets(c, Read(c, req, conn, reused, o))
  {
  }

  lemma OtherTargets(c: Client, o: Outcome)
    requires !c.phase.Connecting? && !c.phase.Handshaking?
    ensures SameTargets(c, Complete(c, o))
  {
    match c.phase
    case Idle =>
    case Resolving(req) => assert Complete(c, o) == Resolved(c, req, o);
    case Writing(req, conn, reused) =>
      WroteTargets(c, req, conn, reused, o);
      assert Complete(c, o) == Wrote(c, req, conn, reused, o);
    case Reading(req, conn, reused) =>
      ReadTargets(c, req, conn, reused, o);
      assert Complete(c, o) == Read(c, req, conn, reused, o);
  }

  lemma StepTargets(c: Client, first: seq<nat>, n: nat, o: Outcome)
    requires TargetsFrom(c, first, n)
    ensures TargetsFrom(Complete(c, o), first, n)
  {
    if c.phase.Connecting? || c.phase.Handshaking? {
      SetUpTargets(c, first, n, o);
    } else {
      OtherTargets(c, o);
    }
  }

  lemma {:induction false} RunTargets(c: Client, first: seq<nat>, n: nat, outcomes: seq<Outcome>)
    requires TargetsFrom(c, first, n)
    ensures TargetsFrom(CompleteAll(c, outcomes), first, n)
    decreases |outcomes|
  {
    if outcomes != [] {
      StepTargets(c, first, n, outcomes[0]);
      RunTargets(Complete(c, outcomes[0]), first, n, outcomes[1..]);
    }
  }

  /** The submission can use the cached connection. */
  predicate Reusable(c: Client, req: Request, dead: bool) {
    && c.keepAlive && c.cached.Some? && c.cached.value.endpoint == req.endpoint && !dead
    && req.verbKnown && (req.endpoint.tls ==> c.tlsReady)
  }

  lemma SubmitTargets(c: Client, req: Request, dead: bool)
    requires c.cached.Some?
    ensures var s := Submit(c, req, dead);
            var first := if Reusable(c, req, dead) then [c.cached.value.id] else [];
            s.targets == first && TargetsFrom(s, first, |c.connected|)
  {
  }

  /**
   Over the whole of a request, it is written to the cached connection exactly when keep-alive is on, that connection
   is alive and was made for the same host, port and scheme, and the request can be sent at all.
   */
  lemma ReusedExactly(c: Client, req: Request, dead: bool, outcomes: seq<Outcome>)
    requires Sound(c) && c.cached.Some?
    ensures c.cached.value.id in CompleteAll(Submit(c, req, dead), outcomes).targets <==> Reusable(c, req, dead)
  {
    var first := if Reusable(c, req, dead) then [c.cached.value.id] else [];
    SubmitTargets(c, req, dead);
    RunTargets(Submit(c, req, dead), first, |c.connected|, outcomes);
    var targets := CompleteAll(Submit(c, req, dead), outcomes).targets;
    if first != [] {
      assert targets[0] == first[0];
    }
  }

  // ----- What is cached

  /** As long as nobody turns keep-alive off: a cached stream that the request was written to is the one in use. */
  ghost predicate Kept(c: Client) {
    && (OnReused(c.phase) ==> c.cached == Some(c.phase.conn))
    && (c.phase.Writing? || c.phase.Reading? ==> c.targets != [] && c.targets[|c.targets| - 1] == c.phase.conn.id)
    && (c.cached.Some? && !OnReused(c.phase) ==> c.cached.value.id !in c.targets)
  }

  lemma SubmitKept(c: Client, req: Request, dead: bool)
    requires Sound(c) && c.phase.Idle?
    ensures Kept(Submit(c, req, dead))
  {
  }

  lemma SetUpKept(c: Client, o: Outcome)
    requires Sound(c) && Kept(c) && (c.phase.Resolving? || c.phase.Connecting? || c.phase.Handshaking?)
    ensures Kept(Complete(c, o))
  {
  }

  lemma WroteKept(c: Client, o: Outcome)
    requires Sound(c) && Kept(c) && c.phase.Writing?
    ensures Kept(Complete(c, o))
  {
  }

  /** After the read of a request that is answered with it, the stream is cached exactly if that ended well. */
  lemma ReadKept(c: Client, o: Outcome)
    requires Sound(c) && Kept(c) && c.phase.Reading?
    ensures var d := Complete(c, o);
            && (o.failure == None && c.keepAlive ==> d.cached == Some(c.phase.conn))
            && (o.failure != None || !c.keepAlive ==> Kept(d))
  {
  }

  lemma {:induction false} RunKept(c: Client, outcomes: seq<Outcome>, k: nat)
    requires Sound(c) && Kept(c) && k <= |outcomes| && !Before(c, outcomes, k).Idle?
    ensures var d := CompleteAll(c, outcomes[..k]); Sound(d) && Kept(d) && d.keepAlive == c.keepAlive
    decreases k
  {
    if k == 0 {
      assert outcomes[..0] == [];
    } else {
      var prior := CompleteAll(c, outcomes[..k - 1]);
      CompleteAllSnoc(c, outcomes[..k - 1], outcomes[k - 1]);
      assert outcomes[..k] == outcomes[..k - 1] + [outcomes[k - 1]];
      if prior.phase.Idle? {
        assert false;
      }
      RunKept(c, outcomes, k - 1);
      StepKept(prior, outcomes[k - 1]);
    }
  }

  lemma StepKept(c: Client, o: Outcome)
    requires Sound(c) && Kept(c) && !c.phase.Idle? && !Complete(c, o).phase.Idle?
    ensures var d := Complete(c, o); Sound(d) && Kept(d) && d.keepAlive == c.keepAlive
  {
    StepSound(c, Completion(o));
    if c.phase.Writing? {
      WroteKept(c, o);
    } else if c.phase.Reading? {
      ReadKept(c, o);
    } else {
      SetUpKept(c, o);
    }
  }

  /** The request ended by a read without failure: its reply has no error, and the last outcome no failure. */
  predicate EndedWell(d: Client, o: Outcome) {
    |d.replies| == 1 && d.replies[0].error == NoError && o.failure == None
  }

  lemma LastStep(e: Client, req: Request, o: Outcome)
    requires Sound(e) && Kept(e) && Underway(e, req) && !e.phase.Idle? && Complete(e, o).phase.Idle?
    ensures var d := Complete(e, o);
            if EndedWell(d, o) && e.keepAlive
            then d.targets != [] && d.cached == Some(Conn(d.targets[|d.targets| - 1], req.endpoint))
            else d.cached.Some? ==> d.cached.value.id !in d.targets
  {
    StepTold(e, req, o);
    if e.phase.Reading? {
      ReadKept(e, o);
      ReadTargets(e, req, e.phase.conn, e.phase.reused, o);
      assert Complete(e, o) == Read(e, req, e.phase.conn, e.phase.reused, o);
    } else if e.phase.Writing? {
      WroteKept(e, o);
    } else {
      SetUpKept(e, o);
    }
  }

  /**
   For every request and the outcomes that answer it: if it ends by a read without failure while keep-alive is on, the
   stream it was last written to is cached for its endpoint; any other end leaves no stream of the request in the cache.
   */
  lemma CachedExactly(c: Client, req: Request, dead: bool, outcomes: seq<Outcome>, k: nat)
    requires Sound(c) && c.phase.Idle? && EndsAt(Submit(c, req, dead), outcomes, k)
    ensures var d := CompleteAll(Submit(c, req, dead), outcomes);
            if EndedWell(d, outcomes[k]) && c.keepAlive
            then d.targets != [] && d.cached == Some(Conn(d.targets[|d.targets| - 1], req.endpoint))
            else d.cached.Some? ==> d.cached.value.id !in d.targets
  {
    var s := Submit(c, req, dead);
    SubmitSound(c, req, dead);
    SubmitKept(c, req, dead);
    SubmitUnderway(c, req, dead);
    RunKept(s, outcomes, k);
    CompleteAllUnderway(s, req, outcomes[..k]);
    EndIsFinal(s, outcomes, k);
    LastStep(CompleteAll(s, outcomes[..k]), req, outcomes[k]);
  }

  /** The outcomes are exactly those that the request takes. */
  predicate Exact(begun: Client, outcomes: seq<Outcome>) {
    if outcomes == [] then begun.phase.Idle? else EndsAt(begun, outcomes, |outcomes| - 1)
  }

  /** `CachedExactly` of a client that is left with these outcomes. */
  predicate CachedRight(d: Client, req: Request, outcomes: seq<Outcome>) {
    if outcomes != [] && EndedWell(d, outcomes[|outcomes| - 1]) && d.keepAlive
    then d.targets != [] && d.cached == Some(Conn(d.targets[|d.targets| - 1], req.endpoint))
    else d.cached.Some? ==> d.cached.value.id !in d.targets
  }

  lemma CachedAfter(c: Client, req: Request, dead: bool, outcomes: seq<Outcome>)
    requires Sound(c) && c.phase.Idle? && Exact(Submit(c, req, dead), outcomes)
    ensures CachedRight(CompleteAll(Submit(c, req, dead), outcomes), req, outcomes)
  {
    var s := Submit(c, req, dead);
    if outcomes == [] {
      SubmitKept(c, req, dead);
    } else {
      RunSettings(s, outcomes);
      CachedExactly(c, req, dead, outcomes, |outcomes| - 1);
    }
  }

  predicate SameSettings(c: Client, d: Client) {
    d.keepAlive == c.keepAlive && d.tlsReady == c.tlsReady
  }

  lemma SetUpSettings(c: Client, o: Outcome)
    requires c.phase.Idle? || c.phase.Resolving? || c.phase.Connecting? || c.phase.Handshaking?
    ensures SameSettings(c, Complete(c, o))
  {
  }

  lemma WroteSettings(c: Client, req: Request, conn: Conn, reused: bool, o: Outcome)
    ensures SameSettings(c, Wrote(c, req, conn, reused, o))
  {
  }

  lemma ReadSettings(c: Client, req: Request, conn: Conn, reused: bool, o: Outcome)
    ensures SameSettings(c, Read(c, req, conn, reused, o))
  {
  }

  lemma StepSettings(c: Client, o: Outcome)
    ensures SameSettings(c, Complete(c, o))
  {
    if c.phase.Writing? {
      WroteSettings(c, c.phase.req, c.phase.conn, c.phase.reused, o);
    } else if c.phase.Reading? {
      ReadSettings(c, c.phase.req, c.phase.conn, c.phase.reused, o);
    } else {
      SetUpSettings(c, o);
    }
  }

  lemma {:induction false} RunSettings(c: Client, outcomes: seq<Outcome>)
    ensures SameSettings(c, CompleteAll(c, outcomes))
    decreases |outcomes|
  {
    if outcomes != [] {
      StepSettings(c, outcomes[0]);
      RunSettings(Complete(c, outcomes[0]), outcomes[1..]);
    }
  }

  /** A request on a cached stream that is alive, with a write and a read without failure, opens no other stream. */
  lemma ServedByCached(c: Client, req: Request, written: Outcome, read: Outcome)
    requires Sound(c) && c.phase.Idle? && Reusable(c, req, false) && written.failure == None && read.failure == None
    ensures var d := Complete(Complete(Submit(c, req, false), written), read);
            && d.phase.Idle? && d.connected == c.connected && d.targets == [c.cached.value.id] && d.cached == c.cached
  {
    var s := Submit(c, req, false);
    assert s == StartWrite(c.(targets := [], freshStarts := 0, replies := []), req, c.cached.value, true);
  }

  /**
   Under keep-alive, after a request that ended by a read without failure, a second one to the same endpoint that finds
   the stream alive and meets no failure is served by that stream: the two open one, and it stays cached.
   */
  lemma TwoRequestsOneStream(
    c: Client, req: Request, dead: bool, outcomes: seq<Outcome>, k: nat, next: Request, written: Outcome, read: Outcome)
    requires Sound(c) && c.phase.Idle? && c.keepAlive && EndsAt(Submit(c, req, dead), outcomes, k)
    requires EndedWell(CompleteAll(Submit(c, req, dead), outcomes), outcomes[k])
    requires next.endpoint == req.endpoint && next.verbKnown && written.failure == None && read.failure == None
    ensures var first := CompleteAll(Submit(c, req, dead), outcomes);
            var second := Complete(Complete(Submit(first, next, false), written), read);
            && first.targets != [] && second.phase.Idle? && second.connected == first.connected
            && second.targets == [first.targets[|first.targets| - 1]] && second.cached == first.cached
  {
    var s := Submit(c, req, dead);
    var first := CompleteAll(s, outcomes);
    CachedExactly(c, req, dead, outcomes, k);
    SubmitSound(c, req, dead);
    SubmitUnderway(c, req, dead);
    RunSettings(s, outcomes);
    EndIsFinal(s, outcomes, k);
    var e := CompleteAll(s, outcomes[..k]);
    CompleteAllUnderway(s, req, outcomes[..k]);
    SubmitKept(c, req, dead);
    RunKept(s, outcomes, k);
    RunSettings(s, outcomes[..k]);
    StepSound(e, Completion(outcomes[k]));
    assert s.keepAlive && s.tlsReady == c.tlsReady;
    ServedByCached(first, next, written, read);
  }

  /** No stream from before the request is in the cache, in use, or about to be. */
  predicate OnlyNew(c: Client, n: nat) {
    && n <= |c.connected| && (c.cached.Some? ==> c.cached.value.id >= n)
    && (c.phase.Handshaking? || c.phase.Writing? || c.phase.Reading? ==> c.phase.conn.id >= n)
  }

  lemma SetUpOnlyNew(c: Client, o: Outcome, n: nat)
    requires OnlyNew(c, n) && (c.phase.Idle? || c.phase.Resolving? || c.phase.Connecting? || c.phase.Handshaking?)
    ensures OnlyNew(Complete(c, o), n)
  {
  }

  lemma WroteOnlyNew(c: Client, req: Request, conn: Conn, reused: bool, o: Outcome, n: nat)
    requires OnlyNew(c, n) && conn.id >= n
    ensures OnlyNew(Wrote(c, req, conn, reused, o), n)
  {
  }

  lemma ReadOnlyNew(c: Client, req: Request, conn: Conn, reused: bool, o: Outcome, n: nat)
    requires OnlyNew(c, n) && conn.id >= n
    ensures OnlyNew(Read(c, req, conn, reused, o), n)
  {
  }

  lemma StepOnlyNew(c: Client, o: Outcome, n: nat)
    requires OnlyNew(c, n)
    ensures OnlyNew(Complete(c, o), n)
  {
    if c.phase.Writing? {
      WroteOnlyNew(c, c.phase.req, c.phase.conn, c.phase.reused, o, n);
    } else if c.phase.Reading? {
      ReadOnlyNew(c, c.phase.req, c.phase.conn, c.phase.reused, o, n);
    } else {
      SetUpOnlyNew(c, o, n);
    }
  }

  lemma {:induction false} RunOnlyNew(c: Client, outcomes: seq<Outcome>, n: nat)
    requires OnlyNew(c, n)
    ensures OnlyNew(CompleteAll(c, outcomes), n)
    decreases |outcomes|
  {
    if outcomes != [] {
      StepOnlyNew(c, outcomes[0], n);
      RunOnlyNew(Complete(c, outcomes[0]), outcomes[1..], n);
    }
  }

  /** A cached connection that the peek finds dead is never used or cached again. */
  lemma DeadIsDropped(c: Client, req: Request, outcomes: seq<Outcome>)
    requires Sound(c) && c.phase.Idle? && Reusable(c, req, false)
    ensures var d := CompleteAll(Submit(c, req, true), outcomes);
            && c.cached.value.id !in d.targets
            && (d.cached.Some? ==> d.cached.value.id != c.cached.value.id)
  {
    ReusedExactly(c, req, true, outcomes);
    RunOnlyNew(Submit(c, req, true), outcomes, |c.connected|);
  }
}
