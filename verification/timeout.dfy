/** The per-request timeout interceptor. The race between the handlers and
    the deadline is not modelled; which side won, and whether the handlers
    had already written a response, are inputs. */
module Timeout {
  import opened Common
  import opened Errors

  /** `TimeoutConfig`: the per-request deadline (0 or less switches the
      interceptor off) and the status to answer with when it passes. */
  datatype TimeoutConfig = TimeoutConfig(requestTimeout: Int64, gatewayTimeoutStatus: int)

  /** The interceptor `TimeoutMiddleware` builds. */
  datatype Enforcer = PassThrough | Enforce(deadline: Int64, status: int)

  /** Which case of the `select` fired. */
  datatype Race = Done | Deadline

  /** `TimeoutMiddleware`: no deadline gives a pass-through; otherwise the
      status falls back to 504 when left at 0. */
  function TimeoutMiddleware(cfg: TimeoutConfig): (e: Enforcer)
    ensures e.PassThrough? <==> cfg.requestTimeout <= 0
    ensures e.Enforce? ==> e.deadline == cfg.requestTimeout && e.deadline > 0
    ensures e.Enforce? ==> e.status == (if cfg.gatewayTimeoutStatus == 0 then StatusGatewayTimeout else cfg.gatewayTimeoutStatus)
    ensures e.Enforce? ==> e.status != 0
  {
    if cfg.requestTimeout <= 0 then PassThrough
    else
      var status := if cfg.gatewayTimeoutStatus == 0 then StatusGatewayTimeout else cfg.gatewayTimeoutStatus;
      Enforce(cfg.requestTimeout, status)
  }

  /** What the interceptor does to the response once the race is decided.
      The handlers run exactly once in every case. */
  function AfterRace(e: Enforcer, race: Race, written: bool): (eff: Effect)
    ensures eff.nextCalls == 1
    ensures eff.aborted <==> e.Enforce? && race == Deadline
    ensures eff.written != Nothing <==> e.Enforce? && race == Deadline && !written
    ensures eff.written != Nothing ==>
      && eff.Status() == Some(e.status)
      && eff.written.Json? && !eff.written.body.ok
      && eff.written.body.code == "timeout" && eff.written.body.error == "request timed out"
      && eff.written.body.details == None
  {
    match e
    case PassThrough => Pass
    case Enforce(_, status) =>
      match race
      case Done => Pass
      case Deadline =>
        if written then Effect(Nothing, true, 1)
        else RespondError(status, "timeout", "request timed out", None).(nextCalls := 1)
  }

  /** When the handlers finish first the interceptor is indistinguishable
      from having none. */
  lemma CompletionIsTransparent(cfg: TimeoutConfig, race: Race, written: bool)
    ensures AfterRace(TimeoutMiddleware(cfg), Done, written) == AfterRace(PassThrough, race, written)
  {
  }

  /** A passed deadline on an unanswered request is reported with the
      configured status, or 504 when none is configured. */
  lemma DeadlineStatus(cfg: TimeoutConfig)
    requires cfg.requestTimeout > 0
    ensures AfterRace(TimeoutMiddleware(cfg), Deadline, false).Status() ==
      Some(if cfg.gatewayTimeoutStatus == 0 then 504 else cfg.gatewayTimeoutStatus)
  {
  }

  /** A passed deadline after the handlers wrote leaves the response alone
      but still stops the chain. */
  lemma LateDeadlineOnlyAborts(cfg: TimeoutConfig)
    requires cfg.requestTimeout > 0
    ensures AfterRace(TimeoutMiddleware(cfg), Deadline, true).Status() == None
    ensures AfterRace(TimeoutMiddleware(cfg), Deadline, true).aborted
  {
  }
}
