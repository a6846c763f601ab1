/** The time budget of the HA loop (patroni/config.py). */
module Timeouts {

  datatype Param = LoopWait | RetryTimeout | Ttl | Other(name: string)

  /** The integers of a dynamic configuration; a timing parameter that is not set has its default. */
  type Config = map<Param, int>

  function Default(param: Param): int {
    match param
    case LoopWait => 10
    case RetryTimeout => 10
    case Ttl => 30
    case Other(_) => 0
  }

  function Value(config: Config, param: Param): int {
    if param in config then config[param] else Default(param)
  }

  function Raised(config: Config, param: Param, minimum: int): int {
    if Value(config, param) < minimum then minimum else Value(config, param)
  }

  const MIN_LOOP_WAIT := 1
  const MIN_RETRY_TIMEOUT := 3
  const MIN_TTL := 20

  /** Renewing the lease and noticing that the renewal fails fit into one lease. */
  predicate WithinBudget(config: Config) {
    Value(config, LoopWait) + 2 * Value(config, RetryTimeout) <= Value(config, Ttl)
  }

  predicate AboveMinima(config: Config) {
    && Value(config, LoopWait) >= MIN_LOOP_WAIT
    && Value(config, RetryTimeout) >= MIN_RETRY_TIMEOUT
    && Value(config, Ttl) >= MIN_TTL
  }

  /** What the adjustment promises: the least change that fits, `loop_wait` giving way first. */
  ghost predicate IsAdjusted(before: Config, after: Config) {
    var ttl := Raised(before, Ttl, MIN_TTL);
    var retry := Raised(before, RetryTimeout, MIN_RETRY_TIMEOUT);
    var wait := Raised(before, LoopWait, MIN_LOOP_WAIT);
    && AboveMinima(after) && WithinBudget(after)
    && Value(after, Ttl) == ttl
    // the largest retry timeout that still leaves the shortest wait
    && Value(after, RetryTimeout) <= retry
    && (Value(after, RetryTimeout) < retry ==>
          Value(after, LoopWait) == MIN_LOOP_WAIT && MIN_LOOP_WAIT + 2 * (Value(after, RetryTimeout) + 1) > ttl)
    // the longest wait that fits
    && Value(after, LoopWait) <= wait
    && (Value(after, LoopWait) < wait && Value(after, RetryTimeout) == retry ==>
          Value(after, LoopWait) + 2 * retry == ttl)
    && (forall k: Param | k.Other? :: (k in after <==> k in before) && (k in before ==> after[k] == before[k]))
  }

  class Validator {
    var config: Config

    constructor (config: Config)
      ensures this.config == config
    {
      this.config := config;
    }

    /** `__get_and_maybe_adjust_int_value`. */
    method GetAndMaybeAdjust(param: Param, minValue: int) returns (value: int)
      modifies this
      ensures value == Raised(old(config), param, minValue)
      ensures config == if Value(old(config), param) < minValue then old(config)[param := minValue] else old(config)
    {
      value := Value(config, param);
      if value < minValue {
        value := minValue;
        config := config[param := minValue];
      }
    }

    /** `_validate_and_adjust_timeouts`. */
    method ValidateAndAdjust()
      modifies this
      ensures IsAdjusted(old(config), config)
      ensures AboveMinima(old(config)) && WithinBudget(old(config)) ==> config == old(config)
    {
      var loopWait := GetAndMaybeAdjust(LoopWait, MIN_LOOP_WAIT);
      var retryTimeout := GetAndMaybeAdjust(RetryTimeout, MIN_RETRY_TIMEOUT);
      var ttl := GetAndMaybeAdjust(Ttl, MIN_TTL);
      if MIN_LOOP_WAIT + 2 * retryTimeout > ttl {
        config := config[LoopWait := MIN_LOOP_WAIT][RetryTimeout := (ttl - MIN_LOOP_WAIT) / 2];
      } else if loopWait + 2 * retryTimeout > ttl {
        config := config[LoopWait := ttl - 2 * retryTimeout];
      }
    }
  }

  /** The promise fixes every value, so adjusting twice is adjusting once. */
  lemma AdjustmentIsUnique(before: Config, a: Config, b: Config, param: Param)
    requires IsAdjusted(before, a) && IsAdjusted(before, b) && !param.Other?
    ensures Value(a, param) == Value(b, param)
  {
  }

  /** The defaults, 10 and 10 seconds in 30, need no adjustment and use the whole lease; the least
      values are 1, 3 and 20 seconds. */
  lemma DefaultsFit()
    ensures Value(map[], LoopWait) == 10 && Value(map[], RetryTimeout) == 10 && Value(map[], Ttl) == 30
    ensures IsAdjusted(map[], map[]) && Value(map[], LoopWait) + 2 * Value(map[], RetryTimeout) == Value(map[], Ttl)
    ensures forall config: Config :: AboveMinima(config) <==>
              Value(config, LoopWait) >= 1 && Value(config, RetryTimeout) >= 3 && Value(config, Ttl) >= 20
  {}
}
