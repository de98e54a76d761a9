/** The circuit breaker shared by all stream workers, and the history of calls it answers. */
module Breaker {

  datatype State = Closed | Open | HalfOpen

  /** A call on the breaker at a clock reading, in the order its lock grants them. */
  datatype Event =
    | Asked(time: int)
    | Succeeded(time: int)
    | Failed(time: int)

  type History = seq<Event>

  datatype Config = Config(failureThreshold: int, successThreshold: int, openTimeout: int)

  /** Zero and negative settings are replaced by defaults. */
  predicate Effective(c: Config) {
    c.failureThreshold > 0 && c.successThreshold > 0 && c.openTimeout > 0
  }

  datatype Fields = Fields(state: State, failureCount: int, successCount: int, lastFailureTime: int)

  const INITIAL: Fields := Fields(Closed, 0, 0, 0)

  function OnAllow(c: Config, f: Fields, now: int): Fields {
    if f.state.Open? && now - f.lastFailureTime >= c.openTimeout then f.(state := HalfOpen, successCount := 0) else f
  }

  function Answer(c: Config, f: Fields, now: int): bool {
    !f.state.Open? || now - f.lastFailureTime >= c.openTimeout
  }

  function OnSuccess(c: Config, f: Fields): Fields {
    match f.state
    case HalfOpen =>
      if f.successCount + 1 >= c.successThreshold then Fields(Closed, 0, 0, f.lastFailureTime)
      else f.(successCount := f.successCount + 1)
    case Closed => f.(failureCount := 0)
    case Open => f
  }

  function OnFailure(c: Config, f: Fields, now: int): Fields {
    match f.state
    case Closed =>
      Fields(if f.failureCount + 1 >= c.failureThreshold then Open else Closed, f.failureCount + 1, f.successCount, now)
    case HalfOpen => f.(state := Open, lastFailureTime := now)
    case Open => f.(lastFailureTime := now)
  }

  function Apply(c: Config, f: Fields, e: Event): Fields {
    match e
    case Asked(now) => OnAllow(c, f, now)
    case Succeeded(_) => OnSuccess(c, f)
    case Failed(now) => OnFailure(c, f, now)
  }

  /** The fields after a history of calls. */
  function Replay(c: Config, h: History): Fields {
    if h == [] then INITIAL else Apply(c, Replay(c, h[..|h| - 1]), h[|h| - 1])
  }

  class CircuitBreaker {
    var state: State
    var failureCount: int
    var successCount: int
    var lastFailureTime: int
    const config: Config
    ghost var history: History

    ghost function Now(): Fields
      reads this
    {
      Fields(state, failureCount, successCount, lastFailureTime)
    }

    ghost predicate Valid()
      reads this
    {
      Effective(config) && Now() == Replay(config, history)
    }

    constructor (failureThreshold: int, successThreshold: int, openTimeout: int)
      ensures Valid() && history == []
      ensures config.failureThreshold == if failureThreshold <= 0 then 5 else failureThreshold
      ensures config.successThreshold == if successThreshold <= 0 then 2 else successThreshold
      ensures config.openTimeout == if openTimeout <= 0 then 30_000_000_000 else openTimeout
    {
      config := Config(if failureThreshold <= 0 then 5 else failureThreshold,
                       if successThreshold <= 0 then 2 else successThreshold,
                       if openTimeout <= 0 then 30_000_000_000 else openTimeout);
      state, failureCount, successCount, lastFailureTime := Closed, 0, 0, 0;
      history := [];
    }

    method Allow(now: int) returns (allowed: bool)
      requires Valid()
      modifies this
      ensures Valid() && history == old(history) + [Asked(now)]
      ensures allowed == Answer(config, Replay(config, old(history)), now)
    {
      history := history + [Asked(now)];
      match state
      case Closed => return true;
      case HalfOpen => return true;
      case Open =>
        if now - lastFailureTime >= config.openTimeout {
          state := HalfOpen;
          successCount := 0;
          return true;
        }
        return false;
    }

    method RecordSuccess(ghost now: int)
      requires Valid()
      modifies this
      ensures Valid() && history == old(history) + [Succeeded(now)]
    {
      history := history + [Succeeded(now)];
      match state
      case HalfOpen =>
        successCount := successCount + 1;
        if successCount >= config.successThreshold {
          state := Closed;
          failureCount := 0;
          successCount := 0;
        }
      case Closed =>
        failureCount := 0;
      case Open =>
    }

    method RecordFailure(now: int)
      requires Valid()
      modifies this
      ensures Valid() && history == old(history) + [Failed(now)]
    {
      history := history + [Failed(now)];
      lastFailureTime := now;
      match state
      case Closed =>
        failureCount := failureCount + 1;
        if failureCount >= config.failureThreshold {
          state := Open;
        }
      case HalfOpen =>
        state := Open;
      case Open =>
    }
  }
}
