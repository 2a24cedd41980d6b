/** The login handler as one worker runs it, on the mutable limiter. */
module LoginHandler {
  import opened Wrappers
  import opened RateLimiter
  import opened AttemptWindows
  import opened LoginProtocol
  import opened RedisOutage
  import opened OutageAnswers

  /** The same readings of a request whose authentication never took place. */
  function Unserved(q: Request): Request { q.(outcome := Crashed) }

  /** After authentication: a failure is recorded on both keys, a success clears both. */
  method Settle(limiter: Limiter, c: Config, ip: string, id: string, ipReq: Request, idReq: Request)
    requires limiter.Valid() && ip != id && ipReq.outcome == idReq.outcome
    modifies limiter
    ensures limiter.Valid()
    ensures limiter.View(ip) == Settled(c, old(limiter.View(ip)), ipReq)
    ensures limiter.View(id) == Settled(c, old(limiter.View(id)), idReq)
    ensures forall k :: k != ip && k != id ==> limiter.View(k) == old(limiter.View(k))
  {
    match ipReq.outcome {
      case Crashed =>
      case Failed =>
        var _ := limiter.RecordAttempt(ip, c.window, ipReq.upAfter, ipReq.after);
        var _ := limiter.RecordAttempt(id, c.window, idReq.upAfter, idReq.after);
      case Succeeded =>
        limiter.ClearAttempts(ip, ipReq.upAfter);
        limiter.ClearAttempts(id, idReq.upAfter);
    }
  }

  /**
    login: the address is checked before the identifier, and authentication runs only if neither is
    limited.  `ipSide` and `idSide` say what the two keys were given so far; for each key the call is
    one request of the outage model: a key that passed while the other was limited is neither
    recorded nor cleared, and an identifier that was never reached is not even pruned.  So ServeInv,
    and with it every bound proved there, applies to each login.
   */
  method Login(limiter: Limiter, c: Config, ipDigest: string, idDigest: string, ipReq: Request, idReq: Request,
               ghost ipSide: Side, ghost idSide: Side)
    returns (retry: Option<int>, ghost ipAfter: Side, ghost idAfter: Side)
    requires limiter.Valid() && ipReq.outcome == idReq.outcome
    requires limiter.View(IpKey(ipDigest)) == ipSide.stores && limiter.View(IdKey(idDigest)) == idSide.stores
    modifies limiter
    ensures limiter.Valid()
    ensures limiter.View(IpKey(ipDigest)) == ipAfter.stores && limiter.View(IdKey(idDigest)) == idAfter.stores
    ensures forall k :: k != IpKey(ipDigest) && k != IdKey(idDigest) ==> limiter.View(k) == old(limiter.View(k))
    ensures var ipAnswer, idAnswer := Serve(c, ipSide, ipReq).1, Serve(c, idSide, idReq).1;
            && retry == (if ipAnswer.Some? then ipAnswer else idAnswer)
            && ipAfter == Serve(c, ipSide, if retry.Some? then Unserved(ipReq) else ipReq).0
            && idAfter == (if ipAnswer.Some? then idSide else Serve(c, idSide, idReq).0)
  {
    var ip, id := IpKey(ipDigest), IdKey(idDigest);
    KeysDiffer(ipDigest, idDigest);
    ServeIs(c, ipSide, ipReq);
    ServeIs(c, ipSide, Unserved(ipReq));
    ServeIs(c, idSide, idReq);
    retry := limiter.IsLimited(ip, c.limit, c.window, ipReq.upCheck, ipReq.redisNow, ipReq.memoryNow);
    ipAfter, idAfter := Serve(c, ipSide, Unserved(ipReq)).0, idSide;
    if retry.Some? {
      return;
    }
    retry := limiter.IsLimited(id, c.limit, c.window, idReq.upCheck, idReq.redisNow, idReq.memoryNow);
    idAfter := Serve(c, idSide, idReq).0;
    if retry.Some? {
      return;
    }
    ipAfter := Serve(c, ipSide, ipReq).0;
    Settle(limiter, c, ip, id, ipReq, idReq);
  }
}
