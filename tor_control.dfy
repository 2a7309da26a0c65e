/** `renew_tor_ip` of both crawlers: a client of Tor's control port that sends
    `AUTHENTICATE ""` (section 3.5 of Tor's control-spec) and `SIGNAL NEWNYM`
    (section 3.7), each expected to be answered with a reply containing `250`,
    and retries the whole exchange up to three times. The socket, the IP echo
    service and the sleeps are not modelled: what each attempt observes is
    given as an `Exchange`. */
module TorControl {
  import opened Text
  import opened Common
  import Retry

  /** The two commands written to the control port. */
  datatype Command = Authenticate | SignalNewnym

  /** A reply read with `recv(1024)`, or the exception reading it raised. */
  datatype Reply = Reply(bytes: string) | ReadFailed

  /** The body returned by the IP echo service, or the exception the request raised. */
  datatype Echo = Ip(address: string) | EchoFailed

  /** What one attempt observes: whether the connection opened, the replies to
      the two commands and, for the deep crawler, the IP read twice after NEWNYM. */
  datatype Exchange = Exchange(connected: bool, authReply: Reply, signalReply: Reply, oldIp: Echo, newIp: Echo)

  /** `b'250' in response`. */
  predicate Accepted(r: Reply) {
    r.Reply? && Contains(r.bytes, "250")
  }

  /** How `renew_tor_ip` returns from inside an attempt. */
  datatype Renewal = Renewed | AuthRejected | SignalRejected

  /** The end of one pass of the loop body: return, or go round again (an
      exception was caught). */
  datatype Step = Return(how: Renewal) | Retry

  datatype AttemptResult = AttemptResult(sent: seq<Command>, step: Step)

  /** `max_retries` in `renew_tor_ip`. */
  const MaxRenewAttempts: nat := 3

  /** One pass of the loop body. The enhanced crawler raises (and so retries) on
      a reply without `250`; the deep crawler returns at once on such a reply,
      and retries only on an exception or an IP that did not change. */
  function Attempt(c: Crawler, x: Exchange): (r: AttemptResult)
    ensures SignalNewnym in r.sent ==> r.sent == [Authenticate, SignalNewnym] && Accepted(x.authReply)
    ensures SignalNewnym !in r.sent ==> r.sent == [] || r.sent == [Authenticate]
    ensures r.step == Return(Renewed) ==> Accepted(x.authReply) && Accepted(x.signalReply)
    ensures !x.connected <==> r.sent == []
    // An exception inside the attempt (refused connection, failed read) is caught and retried.
    ensures !x.connected || x.authReply.ReadFailed? || (Accepted(x.authReply) && x.signalReply.ReadFailed?) ==>
              r.step == Retry
    // The enhanced crawler returns only after both replies hold `250`; anything else is retried.
    ensures c == Enhanced ==>
              (r.step == Return(Renewed) <==> x.connected && Accepted(x.authReply) && Accepted(x.signalReply))
              && (r.step.Return? ==> r.step == Return(Renewed))
    // The deep crawler returns on a rejected reply, and on a changed IP.
    ensures c == Deep ==>
              (r.step == Return(AuthRejected) <==> x.connected && x.authReply.Reply? && !Accepted(x.authReply))
    ensures c == Deep ==>
              (r.step == Return(SignalRejected) <==>
                 x.connected && Accepted(x.authReply) && x.signalReply.Reply? && !Accepted(x.signalReply))
    ensures c == Deep ==>
              (r.step == Return(Renewed) <==>
                 x.connected && Accepted(x.authReply) && Accepted(x.signalReply)
                 && x.oldIp.Ip? && x.newIp.Ip? && x.oldIp != x.newIp)
    ensures (&& c == Deep && x.connected && Accepted(x.authReply) && Accepted(x.signalReply)
             && (x.oldIp.EchoFailed? || x.newIp.EchoFailed? || x.oldIp == x.newIp)) ==> r.step == Retry
  {
    if !x.connected then AttemptResult([], Retry)
    else if x.authReply.ReadFailed? then AttemptResult([Authenticate], Retry)
    else if !Accepted(x.authReply) then
      AttemptResult([Authenticate], if c == Enhanced then Retry else Return(AuthRejected))
    else if x.signalReply.ReadFailed? then AttemptResult([Authenticate, SignalNewnym], Retry)
    else if !Accepted(x.signalReply) then
      AttemptResult([Authenticate, SignalNewnym], if c == Enhanced then Retry else Return(SignalRejected))
    else if c == Enhanced then AttemptResult([Authenticate, SignalNewnym], Return(Renewed))
    else if x.oldIp.EchoFailed? || x.newIp.EchoFailed? || x.oldIp == x.newIp then
      AttemptResult([Authenticate, SignalNewnym], Retry)
    else AttemptResult([Authenticate, SignalNewnym], Return(Renewed))
  }

  /** How a call to `renew_tor_ip` ends: returned from an attempt, or fell out of
      the loop after the last attempt (the warning path). Neither raises. */
  datatype RenewOutcome = Finished(how: Renewal) | GaveUp

  /** A whole call: its outcome, the attempts made and every command sent. */
  datatype RenewRun = RenewRun(outcome: RenewOutcome, attempts: nat, sent: seq<Command>)

  /** The retry loop from attempt `a` on, where `world(a)` is what attempt `a` observes. */
  function RenewFrom(c: Crawler, world: nat -> Exchange, a: nat): (r: RenewRun)
    requires a < MaxRenewAttempts
    ensures a < r.attempts <= MaxRenewAttempts
    ensures r.outcome == GaveUp ==> r.attempts == MaxRenewAttempts
    decreases MaxRenewAttempts - a
  {
    var x := Attempt(c, world(a));
    match x.step
    case Return(how) => RenewRun(Finished(how), a + 1, x.sent)
    case Retry =>
      if a + 1 == MaxRenewAttempts then RenewRun(GaveUp, a + 1, x.sent)
      else
        var rest := RenewFrom(c, world, a + 1);
        RenewRun(rest.outcome, rest.attempts, x.sent + rest.sent)
  }

  /** The loop from attempt `a` ends on the attempt that returned, or gives up
      after a last attempt that was retried too. */
  lemma {:induction false} RenewFromEnds(c: Crawler, world: nat -> Exchange, a: nat)
    requires a < MaxRenewAttempts
    ensures var r := RenewFrom(c, world, a);
            && (r.outcome.Finished? ==> Attempt(c, world(r.attempts - 1)).step == Return(r.outcome.how))
            && (r.outcome == GaveUp ==> Attempt(c, world(r.attempts - 1)).step == Retry)
    decreases MaxRenewAttempts - a
  {
    if Attempt(c, world(a)).step.Retry? && a + 1 < MaxRenewAttempts {
      RenewFromEnds(c, world, a + 1);
    }
  }

  /** Every attempt before the one the loop ended on was retried. */
  lemma {:induction false} RenewFromRetriedBefore(c: Crawler, world: nat -> Exchange, a: nat)
    requires a < MaxRenewAttempts
    ensures forall b :: a <= b < RenewFrom(c, world, a).attempts - 1 ==> Attempt(c, world(b)).step == Retry
    decreases MaxRenewAttempts - a
  {
    if Attempt(c, world(a)).step.Retry? && a + 1 < MaxRenewAttempts {
      RenewFromRetriedBefore(c, world, a + 1);
    }
  }

  /** A whole call: attempts 0, 1, ... until one returns or the third is retried. */
  function Renew(c: Crawler, world: nat -> Exchange): (r: RenewRun)
    ensures 1 <= r.attempts <= MaxRenewAttempts
    ensures forall b :: 0 <= b < r.attempts - 1 ==> Attempt(c, world(b)).step == Retry
    ensures r.outcome == Finished(Renewed) ==>
              Accepted(world(r.attempts - 1).authReply) && Accepted(world(r.attempts - 1).signalReply)
    ensures r.outcome == GaveUp <==> r.attempts == MaxRenewAttempts && Attempt(c, world(MaxRenewAttempts - 1)).step == Retry
  {
    RenewFromEnds(c, world, 0);
    RenewFromRetriedBefore(c, world, 0);
    RenewFrom(c, world, 0)
  }

  /** A first attempt whose AUTHENTICATE is answered without `250` ends the deep
      crawler's call at once, before NEWNYM is sent. */
  lemma DeepStopsOnAuthRejection(world: nat -> Exchange)
    requires world(0).connected && world(0).authReply.Reply? && !Accepted(world(0).authReply)
    ensures Renew(Deep, world) == RenewRun(Finished(AuthRejected), 1, [Authenticate])
  {
  }

  /** The same reply makes the enhanced crawler try again: the call goes on
      with attempt 1 after sending only AUTHENTICATE. */
  lemma EnhancedRetriesOnAuthRejection(world: nat -> Exchange)
    requires world(0).connected && world(0).authReply.Reply? && !Accepted(world(0).authReply)
    ensures var run := Renew(Enhanced, world);
            && run.attempts >= 2
            && run.sent == [Authenticate] + RenewFrom(Enhanced, world, 1).sent
            && run.outcome == RenewFrom(Enhanced, world, 1).outcome
  {
  }

  /** A NEWNYM answered without `250` ends the deep crawler's call at once. */
  lemma DeepStopsOnSignalRejection(world: nat -> Exchange)
    requires world(0).connected && Accepted(world(0).authReply)
    requires world(0).signalReply.Reply? && !Accepted(world(0).signalReply)
    ensures Renew(Deep, world) == RenewRun(Finished(SignalRejected), 1, [Authenticate, SignalNewnym])
  {
  }

  /** The deep crawler retries when the IP read after NEWNYM did not change. */
  lemma DeepRetriesOnUnchangedIp(world: nat -> Exchange, a: nat)
    requires a < MaxRenewAttempts - 1
    requires world(a).connected && Accepted(world(a).authReply) && Accepted(world(a).signalReply)
    requires world(a).oldIp == world(a).newIp
    ensures RenewFrom(Deep, world, a).attempts > a + 1
  {
  }

  /** An attempt that ends in `Retry` before the last one is followed by the
      next attempt: the call goes on, and its commands come after this one's. */
  lemma RetryGoesOn(c: Crawler, world: nat -> Exchange, a: nat)
    requires a + 1 < MaxRenewAttempts
    requires Attempt(c, world(a)).step == Retry
    ensures RenewFrom(c, world, a).attempts > a + 1
    ensures RenewFrom(c, world, a).sent == Attempt(c, world(a)).sent + RenewFrom(c, world, a + 1).sent
    ensures RenewFrom(c, world, a).outcome == RenewFrom(c, world, a + 1).outcome
  {
  }

  /** A refused connection, a failed read or, for the deep crawler, a failed or
      unchanged IP lookup in any attempt but the last leads to another attempt. */
  lemma ExceptionRetries(c: Crawler, world: nat -> Exchange, a: nat)
    requires a + 1 < MaxRenewAttempts
    requires var x := world(a);
             || !x.connected
             || x.authReply.ReadFailed?
             || (Accepted(x.authReply) && x.signalReply.ReadFailed?)
             || (c == Deep && x.connected && Accepted(x.authReply) && Accepted(x.signalReply)
                 && (x.oldIp.EchoFailed? || x.newIp.EchoFailed? || x.oldIp == x.newIp))
    ensures RenewFrom(c, world, a).attempts > a + 1
  {
    RetryGoesOn(c, world, a);
  }

  /** A retried last attempt ends the loop: the call gives up after three
      attempts, without raising. */
  lemma LastRetryGivesUp(c: Crawler, world: nat -> Exchange)
    requires Attempt(c, world(MaxRenewAttempts - 1)).step == Retry
    ensures RenewFrom(c, world, MaxRenewAttempts - 1) ==
              RenewRun(GaveUp, MaxRenewAttempts, Attempt(c, world(MaxRenewAttempts - 1)).sent)
  {
  }

  /** Every NEWNYM is sent right after an AUTHENTICATE on the same connection. */
  predicate NewnymAfterAuth(sent: seq<Command>) {
    forall i :: 0 <= i < |sent| && sent[i] == SignalNewnym ==> 0 < i && sent[i - 1] == Authenticate
  }

  /** Joining two command streams keeps NEWNYM right after AUTHENTICATE. */
  lemma NewnymAfterAuthAppend(xs: seq<Command>, ys: seq<Command>)
    requires NewnymAfterAuth(xs) && NewnymAfterAuth(ys)
    ensures NewnymAfterAuth(xs + ys)
  {
    var all := xs + ys;
    forall i | 0 <= i < |all| && all[i] == SignalNewnym
      ensures 0 < i && all[i - 1] == Authenticate
    {
      if i >= |xs| {
        assert ys[i - |xs|] == SignalNewnym;
      }
    }
  }

  lemma AttemptNewnymAfterAuth(c: Crawler, x: Exchange)
    ensures NewnymAfterAuth(Attempt(c, x).sent)
  {
    var sent := Attempt(c, x).sent;
    assert sent == [] || sent == [Authenticate] || sent == [Authenticate, SignalNewnym];
  }

  /** In any call of either crawler, NEWNYM is only ever sent straight after
      AUTHENTICATE (and, by `Attempt`, only when that was accepted). */
  lemma {:induction false} NewnymOnlyAfterAuth(c: Crawler, world: nat -> Exchange, a: nat)
    requires a < MaxRenewAttempts
    ensures NewnymAfterAuth(RenewFrom(c, world, a).sent)
    decreases MaxRenewAttempts - a
  {
    var x := Attempt(c, world(a));
    AttemptNewnymAfterAuth(c, world(a));
    if x.step.Retry? && a + 1 < MaxRenewAttempts {
      NewnymOnlyAfterAuth(c, world, a + 1);
      NewnymAfterAuthAppend(x.sent, RenewFrom(c, world, a + 1).sent);
    }
  }

  /** `r` with the commands `prefix`, sent by earlier attempts, put in front. */
  function Prepend(prefix: seq<Command>, r: RenewRun): RenewRun {
    RenewRun(r.outcome, r.attempts, prefix + r.sent)
  }

  /** One turn of the loop, as `RenewFrom` sees it. */
  lemma RenewFromStep(c: Crawler, world: nat -> Exchange, a: nat, prefix: seq<Command>)
    requires a < MaxRenewAttempts
    ensures var x := Attempt(c, world(a));
            var r := Prepend(prefix, RenewFrom(c, world, a));
            && (x.step.Return? ==> r == RenewRun(Finished(x.step.how), a + 1, prefix + x.sent))
            && (x.step.Retry? && a + 1 == MaxRenewAttempts ==> r == RenewRun(GaveUp, a + 1, prefix + x.sent))
            && (x.step.Retry? && a + 1 < MaxRenewAttempts ==>
                  r == Prepend(prefix + x.sent, RenewFrom(c, world, a + 1)))
  {
    var x := Attempt(c, world(a));
    if x.step.Retry? && a + 1 < MaxRenewAttempts {
      var rest := RenewFrom(c, world, a + 1);
      assert prefix + (x.sent + rest.sent) == (prefix + x.sent) + rest.sent;
    }
  }

  /** `renew_tor_ip`. Never raises: every exception inside an attempt is caught,
      and the call returns after at most three attempts. A failed attempt
      sleeps `2 ** attempt`, the last one included. */
  method RenewTorIp(c: Crawler, world: nat -> Exchange)
    returns (outcome: RenewOutcome, attempts: nat, sent: seq<Command>, sleeps: seq<nat>)
    ensures RenewRun(outcome, attempts, sent) == Renew(c, world)
    ensures sleeps == Retry.Doublings(if outcome.GaveUp? then attempts else attempts - 1)
  {
    sent, sleeps := [], [];
    attempts := 0;
    while attempts < MaxRenewAttempts
      invariant attempts <= MaxRenewAttempts
      invariant sleeps == Retry.Doublings(attempts)
      invariant attempts < MaxRenewAttempts ==> Renew(c, world) == Prepend(sent, RenewFrom(c, world, attempts))
      invariant attempts == MaxRenewAttempts ==> Renew(c, world) == RenewRun(GaveUp, attempts, sent)
    {
      var x := Attempt(c, world(attempts));
      RenewFromStep(c, world, attempts, sent);
      sent := sent + x.sent;
      attempts := attempts + 1;
      if x.step.Return? {
        return Finished(x.step.how), attempts, sent, sleeps;
      }
      sleeps := sleeps + [Retry.Pow2(attempts - 1)];
    }
    outcome := GaveUp;
  }
}
