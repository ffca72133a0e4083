/** The critical section of the daemon: cache, spacing, device call, error counter
    (src/server/server.cc:123-173). Times inside are microseconds; `Stamp` is the daemon's own clock. */
module Server {
  import opened Integers
  import opened Types

  datatype Response = Response(raw: string)

  /** How `client_.execute` ends. `Other` are the exceptions that `executeCommand` does not catch. */
  datatype Answer = Answered(response: Response) | DeviceError | Timeout | InvalidData | InvalidResponse | Other

  datatype Reply = Ok(response: Response) | Err(cause: Answer)

  datatype Config = Config(cacheTimeout: nat, delay: nat, errorLimit: nat)

  datatype Cached = Cached(time: nat, arguments: seq<string>, response: Response)

  datatype State = State(
    cache: map<CommandType, Cached>,
    endTime: nat,       // when the last successful execution ended, 0 before the first
    errors: nat,        // 32-bit counter
    shutdown: bool,
    now: nat)           // the clock

  /** One call with what its environment does: the time that passes before each reading of the clock and
      before the device call, the length of that call, and its answer. */
  datatype Call = Call(command: CommandType, arguments: seq<string>,
                       untilCheck: nat, untilDelay: nat, untilStart: nat, untilEnd: nat, answer: Answer)

  /** What a call leaves in the history. `end` is on the daemon's clock, `start` in microseconds. */
  datatype Entry =
    | Hit(command: CommandType, arguments: seq<string>, response: Response, checked: nat)
    | Attempt(command: CommandType, arguments: seq<string>, start: nat, end: nat, answer: Answer)

  function Initial(now: nat): State { State(map[], 0, 0, false, now) }

  function Stamp(now: nat): nat { now / 1000 }

  function Tick(st: State, d: nat): State { st.(now := st.now + d) }

  /** The cache test, at the current time. */
  predicate IsHit(cfg: Config, st: State, command: CommandType, arguments: seq<string>) {
    && command in st.cache
    && SubU64(Stamp(st.now), st.cache[command].time) <= cfg.cacheTimeout
    && arguments == st.cache[command].arguments
  }

  function Evict(st: State, command: CommandType): State { st.(cache := st.cache - {command}) }

  /** The argument of `usleep`, a 32-bit number of microseconds. */
  function SleepArgument(cfg: Config, st: State): nat {
    var diff := SubU64(Stamp(st.now), st.endTime);
    if cfg.delay != 0 && st.endTime != 0 && diff < cfg.delay then ((cfg.delay - diff) * 1000) % U32 else 0
  }

  function Sleep(cfg: Config, st: State): State { Tick(st, SleepArgument(cfg, st)) }

  /** The bookkeeping after the device call. */
  function Finish(cfg: Config, st: State, command: CommandType, arguments: seq<string>, answer: Answer): State {
    match answer
    case Answered(response) =>
      st.(endTime := Stamp(st.now),
          cache := st.cache[command := Cached(Stamp(st.now), arguments, response)],
          errors := 0)
    case DeviceError =>
      var errors := (st.errors + 1) % U32;
      st.(errors := errors, shutdown := st.shutdown || errors >= cfg.errorLimit)
    case _ => st
  }

  function ReplyTo(answer: Answer): Reply {
    if answer.Answered? then Ok(answer.response) else Err(answer)
  }

  /** The state in which the device call of a missed lookup starts. */
  function AtStart(cfg: Config, st: State, call: Call): State {
    Tick(Sleep(cfg, Tick(Evict(Tick(st, call.untilCheck), call.command), call.untilDelay)), call.untilStart)
  }

  function AtEnd(cfg: Config, st: State, call: Call): State {
    Tick(AtStart(cfg, st, call), call.untilEnd)
  }

  /** One whole call: the state it leaves, its reply, and its entry in the history. */
  function Execute(cfg: Config, st: State, call: Call): (State, Reply, Entry) {
    var checked := Tick(st, call.untilCheck);
    if IsHit(cfg, checked, call.command, call.arguments) then
      var response := checked.cache[call.command].response;
      (checked, Ok(response), Hit(call.command, call.arguments, response, Stamp(checked.now)))
    else
      var end := AtEnd(cfg, st, call);
      (Finish(cfg, end, call.command, call.arguments, call.answer),
       ReplyTo(call.answer),
       Attempt(call.command, call.arguments, AtStart(cfg, st, call).now, Stamp(end.now), call.answer))
  }

  class Server {
    const config: Config
    var cache: map<CommandType, Cached>
    var endExecutionTime: nat
    var deviceErrorCounter: nat
    var shutdownCaught: bool
    var now: nat

    function Value(): State
      reads this
    {
      State(cache, endExecutionTime, deviceErrorCounter, shutdownCaught, now)
    }

    constructor (config: Config, now: nat)
      ensures this.config == config && Value() == Initial(now)
    {
      this.config := config;
      cache := map[];
      endExecutionTime := 0;
      deviceErrorCounter := 0;
      shutdownCaught := false;
      this.now := now;
    }

    function Timestamp(): nat
      reads this
    {
      Stamp(now)
    }

    /** The minimum distance from the last success. */
    method DelayExecution()
      modifies this`now
      ensures Value() == Sleep(config, old(Value()))
    {
      if config.delay != 0 && endExecutionTime != 0 {
        var diff := SubU64(Timestamp(), endExecutionTime);
        if diff < config.delay {
          now := now + ((config.delay - diff) * 1000) % U32;
        }
      }
    }

    /** The bookkeeping after the device call. */
    method Record(call: Call) returns (reply: Reply)
      modifies this
      ensures Value() == Finish(config, old(Value()), call.command, call.arguments, call.answer)
      ensures reply == ReplyTo(call.answer)
    {
      match call.answer
      case Answered(response) =>
        endExecutionTime := Timestamp();
        cache := cache[call.command := Cached(endExecutionTime, call.arguments, response)];
        deviceErrorCounter := 0;
        return Ok(response);
      case DeviceError =>
        deviceErrorCounter := (deviceErrorCounter + 1) % U32;
        if !shutdownCaught && deviceErrorCounter >= config.errorLimit {
          shutdownCaught := true;
        }
        return Err(DeviceError);
      case _ =>
        return Err(call.answer);
    }

    /** The body of `executeCommand`, entered with the mutex held. */
    method ExecuteCommand(call: Call) returns (reply: Reply, ghost entry: Entry)
      modifies this
      ensures (Value(), reply, entry) == Execute(config, old(Value()), call)
    {
      hide Finish, Sleep;
      ghost var st := Value();
      now := now + call.untilCheck;
      if call.command in cache {
        var cr := cache[call.command];
        if SubU64(Timestamp(), cr.time) <= config.cacheTimeout && call.arguments == cr.arguments {
          return Ok(cr.response), Hit(call.command, call.arguments, cr.response, Timestamp());
        }
      }
      assert !IsHit(config, Tick(st, call.untilCheck), call.command, call.arguments);
      cache := cache - {call.command};
      now := now + call.untilDelay;
      assert Value() == Tick(Evict(Tick(st, call.untilCheck), call.command), call.untilDelay);
      DelayExecution();
      now := now + call.untilStart;
      ghost var start := now;
      assert Value() == AtStart(config, st, call);
      now := now + call.untilEnd;
      assert Value() == AtEnd(config, st, call);
      entry := Attempt(call.command, call.arguments, start, Timestamp(), call.answer);
      reply := Record(call);
    }
  }
}
