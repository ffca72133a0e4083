/** The state of the daemon as a function of its history, and what that says about cache hits, spacing
    and shutdown over all runs (src/server/server.cc:123-173). */
module ServerHistory {
  import opened Integers
  import opened Types
  import opened Server

  datatype Run = Run(state: State, replies: seq<Reply>, log: seq<Entry>)

  /** The calls of `calls`, one after the other. */
  function RunOf(cfg: Config, start: nat, calls: seq<Call>): (r: Run)
    ensures |r.replies| == |r.log| == |calls|
  {
    if calls == [] then Run(Initial(start), [], [])
    else
      var n := |calls| - 1;
      var r := RunOf(cfg, start, calls[..n]);
      var (st, reply, entry) := Execute(cfg, r.state, calls[n]);
      Run(st, r.replies + [reply], r.log + [entry])
  }

  // ---- What the history says ----

  /** The last device attempt for a command. */
  datatype Last = Never | Last(entry: Entry)

  function LastAttempt(log: seq<Entry>, command: CommandType): (last: Last)
    ensures last.Last? ==> last.entry.Attempt? && last.entry.command == command && last.entry in log
  {
    if log == [] then Never
    else
      var n := |log| - 1;
      if log[n].Attempt? && log[n].command == command then Last(log[n]) else LastAttempt(log[..n], command)
  }

  /** What the cache should hold for a command: the last attempt, if it succeeded. */
  function CacheOf(log: seq<Entry>, command: CommandType): (r: map<CommandType, Cached>)
  {
    match LastAttempt(log, command)
    case Never => map[]
    case Last(e) =>
      if e.answer.Answered? then map[command := Cached(e.end, e.arguments, e.answer.response)] else map[]
  }

  /** When the last successful attempt, of any command, ended; 0 when there is none. */
  function LastSuccess(log: seq<Entry>): nat {
    if log == [] then 0
    else
      var n := |log| - 1;
      if log[n].Attempt? && log[n].answer.Answered? then log[n].end else LastSuccess(log[..n])
  }

  /** The device errors since the last success; hits, timeouts and bad data do not count. */
  function ErrorsSince(log: seq<Entry>): nat {
    if log == [] then 0
    else
      var n := |log| - 1;
      if log[n].Hit? then ErrorsSince(log[..n])
      else if log[n].answer.Answered? then 0
      else if log[n].answer.DeviceError? then ErrorsSince(log[..n]) + 1
      else ErrorsSince(log[..n])
  }

  /** The k-th entry is a device error that brings the 32-bit count to the limit. */
  predicate ReachesLimit(cfg: Config, log: seq<Entry>, k: nat)
    requires k < |log|
  {
    log[k].Attempt? && log[k].answer.DeviceError? && ErrorsSince(log[..k + 1]) % U32 >= cfg.errorLimit
  }

  predicate CacheIsFold(st: State, log: seq<Entry>) {
    forall c: CommandType ::
      (c in st.cache <==> c in CacheOf(log, c)) && (c in st.cache ==> st.cache[c] == CacheOf(log, c)[c])
  }

  predicate Past(st: State, log: seq<Entry>) {
    && LastSuccess(log) <= Stamp(st.now)
    && forall i :: 0 <= i < |log| && log[i].Attempt? ==> log[i].end <= Stamp(st.now)
  }

  predicate Consistent(cfg: Config, st: State, log: seq<Entry>) {
    && CacheIsFold(st, log)
    && st.endTime == LastSuccess(log)
    && st.errors == ErrorsSince(log) % U32
    && (st.shutdown <==> exists k :: 0 <= k < |log| && ReachesLimit(cfg, log, k))
    && Past(st, log)
  }

  // ---- Every call keeps it ----

  /** What a call changes, by the entry it leaves. */
  lemma Changes(cfg: Config, st: State, call: Call)
    ensures var (st', reply, e) := Execute(cfg, st, call);
            && e.command == call.command && e.arguments == call.arguments
            && (e.Hit? ==>
                  && st'.cache == st.cache && st'.errors == st.errors && st'.shutdown == st.shutdown
                  && IsHit(cfg, st', call.command, call.arguments) && e.response == st.cache[call.command].response
                  && reply == Ok(e.response) && st'.now == st.now + call.untilCheck)
            && (e.Attempt? ==>
                  && !IsHit(cfg, Tick(st, call.untilCheck), call.command, call.arguments)
                  && e.answer == call.answer && reply == ReplyTo(call.answer))
            && (e.Attempt? && e.answer.Answered? ==>
                  && st'.cache == st.cache[call.command := Cached(e.end, call.arguments, e.answer.response)]
                  && st'.errors == 0 && st'.shutdown == st.shutdown)
            && (e.Attempt? && !e.answer.Answered? ==> st'.cache == st.cache - {call.command})
            && (e.Attempt? && e.answer.DeviceError? ==>
                  && st'.errors == (st.errors + 1) % U32
                  && st'.shutdown == (st.shutdown || st'.errors >= cfg.errorLimit))
            && (e.Attempt? && !e.answer.Answered? && !e.answer.DeviceError? ==>
                  st'.errors == st.errors && st'.shutdown == st.shutdown)
  {}

  lemma LastAttemptGrows(log: seq<Entry>, entry: Entry, c: CommandType)
    ensures LastAttempt(log + [entry], c) ==
            if entry.Attempt? && entry.command == c then Last(entry) else LastAttempt(log, c)
  {
    assert (log + [entry])[..|log|] == log;
  }

  lemma KeepsCache(cfg: Config, st: State, log: seq<Entry>, call: Call)
    requires CacheIsFold(st, log)
    ensures var (st', _, entry) := Execute(cfg, st, call); CacheIsFold(st', log + [entry])
  {
    hide Execute, LastAttempt;
    var (st', reply, entry) := Execute(cfg, st, call);
    var log' := log + [entry];
    Changes(cfg, st, call);
    forall c: CommandType
      ensures (c in st'.cache <==> c in CacheOf(log', c)) && (c in st'.cache ==> st'.cache[c] == CacheOf(log', c)[c])
    {
      LastAttemptGrows(log, entry, c);
      assert c in st.cache <==> c in CacheOf(log, c);
    }
  }

  lemma ErrorsGrow(cfg: Config, st: State, log: seq<Entry>, call: Call)
    requires st.errors == ErrorsSince(log) % U32
    ensures var (st', _, entry) := Execute(cfg, st, call); st'.errors == ErrorsSince(log + [entry]) % U32
  {
    hide Execute, ErrorsSince;
    var (_, _, entry) := Execute(cfg, st, call);
    Changes(cfg, st, call);
    ErrorsSinceOneMore(log, entry);
    WrapOnce(ErrorsSince(log));
  }

  lemma ErrorsSinceOneMore(log: seq<Entry>, entry: Entry)
    ensures ErrorsSince(log + [entry]) ==
            if entry.Hit? then ErrorsSince(log)
            else if entry.answer.Answered? then 0
            else if entry.answer.DeviceError? then ErrorsSince(log) + 1
            else ErrorsSince(log)
  {
    assert (log + [entry])[..|log|] == log;
  }

  lemma WrapOnce(n: nat)
    ensures (n % U32 + 1) % U32 == (n + 1) % U32
  {}

  lemma LimitReachedBefore(cfg: Config, log: seq<Entry>, entry: Entry, k: nat)
    requires k < |log|
    ensures ReachesLimit(cfg, log + [entry], k) == ReachesLimit(cfg, log, k)
  {
    assert (log + [entry])[..k + 1] == log[..k + 1];
  }

  lemma KeepsShutdown(cfg: Config, st: State, log: seq<Entry>, call: Call)
    requires st.errors == ErrorsSince(log) % U32
    requires st.shutdown <==> exists k :: 0 <= k < |log| && ReachesLimit(cfg, log, k)
    ensures var (st', _, entry) := Execute(cfg, st, call);
            var log' := log + [entry];
            st'.shutdown <==> exists k :: 0 <= k < |log'| && ReachesLimit(cfg, log', k)
  {
    hide Execute, ErrorsSince;
    var (st', _, entry) := Execute(cfg, st, call);
    var n, log' := |log|, log + [entry];
    Changes(cfg, st, call);
    ErrorsGrow(cfg, st, log, call);
    assert log'[..n + 1] == log';
    assert st'.shutdown <==> st.shutdown || ReachesLimit(cfg, log', n);
    if st.shutdown {
      var k :| 0 <= k < n && ReachesLimit(cfg, log, k);
      LimitReachedBefore(cfg, log, entry, k);
    }
    if k :| 0 <= k < n && ReachesLimit(cfg, log', k) {
      LimitReachedBefore(cfg, log, entry, k);
    }
  }

  lemma KeepsTimes(cfg: Config, st: State, log: seq<Entry>, call: Call)
    requires st.endTime == LastSuccess(log) && Past(st, log)
    ensures var (st', _, entry) := Execute(cfg, st, call);
            st'.endTime == LastSuccess(log + [entry]) && Past(st', log + [entry]) && st.now <= st'.now
  {
    var (st', _, entry) := Execute(cfg, st, call);
    assert (log + [entry])[..|log|] == log;
    assert Stamp(st.now) <= Stamp(st'.now);
  }

  /** In every run, of any number of calls and whatever the device does, the state is this function of
      the history. */
  lemma {:induction false} RunConsistent(cfg: Config, start: nat, calls: seq<Call>)
    ensures var r := RunOf(cfg, start, calls); Consistent(cfg, r.state, r.log) && start <= r.state.now
  {
    if calls != [] {
      var n := |calls| - 1;
      var r := RunOf(cfg, start, calls[..n]);
      RunConsistent(cfg, start, calls[..n]);
      KeepsCache(cfg, r.state, r.log, calls[n]);
      ErrorsGrow(cfg, r.state, r.log, calls[n]);
      KeepsShutdown(cfg, r.state, r.log, calls[n]);
      KeepsTimes(cfg, r.state, r.log, calls[n]);
    } else {
      assert CacheIsFold(Initial(start), []);
    }
  }

  // ---- Replies ----

  /** Every call is answered by what happened to it: a hit or a success with its response, anything else
      with its own kind of error. */
  lemma ReplyExactly(cfg: Config, start: nat, calls: seq<Call>, k: nat)
    requires k < |calls|
    ensures var r := RunOf(cfg, start, calls); var e := r.log[k];
            && e.command == calls[k].command && e.arguments == calls[k].arguments
            && (e.Hit? ==> r.replies[k] == Ok(e.response))
            && (e.Attempt? ==> e.answer == calls[k].answer)
            && (forall response :: e.Attempt? && e.answer == Answered(response) ==> r.replies[k] == Ok(response))
            && (e.Attempt? && !e.answer.Answered? ==> r.replies[k] == Err(e.answer))
  {
    RunPrefix(cfg, start, calls, k);
  }

  // ---- Cache hits ----

  lemma NoWrap(a: nat, b: nat)
    requires b <= a < U64
    ensures SubU64(a, b) == a - b
  {}

  /** A call is answered from the cache exactly when the last device attempt for its command succeeded,
      with these very arguments, at most `cacheTimeout` before; the reply then is that attempt's
      response, and no subtraction of timestamps wraps. */
  lemma HitExactly(cfg: Config, start: nat, calls: seq<Call>, call: Call)
    requires var st := RunOf(cfg, start, calls).state; Stamp(st.now + call.untilCheck) < U64
    ensures var r := RunOf(cfg, start, calls);
            var (_, reply, entry) := Execute(cfg, r.state, call);
            var last := LastAttempt(r.log, call.command);
            var check := Stamp(r.state.now + call.untilCheck);
            && (entry.Hit? <==>
                  && last.Last? && last.entry.answer.Answered?
                  && last.entry.arguments == call.arguments
                  && last.entry.end <= check && check - last.entry.end <= cfg.cacheTimeout)
            && (entry.Hit? ==> reply == Ok(last.entry.answer.response))
            && (last.Last? ==> SubU64(check, last.entry.end) == check - last.entry.end)
  {
    hide RunOf, Execute, LastAttempt;
    var r := RunOf(cfg, start, calls);
    RunConsistent(cfg, start, calls);
    Changes(cfg, r.state, call);
    var last := LastAttempt(r.log, call.command);
    var check := Stamp(r.state.now + call.untilCheck);
    assert Stamp(r.state.now) <= check;
    assert call.command in r.state.cache <==> call.command in CacheOf(r.log, call.command);
    if last.Last? {
      var i :| 0 <= i < |r.log| && r.log[i] == last.entry;
      NoWrap(check, last.entry.end);
    }
  }

  /** Every successful reply of a run is a response that the device gave to the same command with
      identical arguments, in this call or in an earlier one. */
  lemma RepliesAreGenuine(cfg: Config, start: nat, calls: seq<Call>, k: nat)
    requires k < |calls| && RunOf(cfg, start, calls).replies[k].Ok?
    ensures var r := RunOf(cfg, start, calls);
            exists i :: 0 <= i <= k && r.log[i].Attempt?
              && r.log[i].command == calls[k].command && r.log[i].arguments == calls[k].arguments
              && r.log[i].answer == Answered(r.replies[k].response)
  {
    RunPrefix(cfg, start, calls, k);
    var r, p := RunOf(cfg, start, calls), RunOf(cfg, start, calls[..k]);
    var (st, reply, entry) := Execute(cfg, p.state, calls[k]);
    if entry.Hit? {
      RunConsistent(cfg, start, calls[..k]);
      var c := calls[k].command;
      assert c in CacheOf(p.log, c);
      var i :| 0 <= i < k && p.log[i] == LastAttempt(p.log, c).entry;
      assert r.log[i] == p.log[i];
    } else {
      assert r.log[k] == entry;
    }
  }

  lemma {:induction false} RunPrefix(cfg: Config, start: nat, calls: seq<Call>, k: nat)
    requires k < |calls|
    ensures var r, p := RunOf(cfg, start, calls), RunOf(cfg, start, calls[..k]);
            && r.log[..k] == p.log && r.replies[..k] == p.replies
            && (r.replies[k], r.log[k]) == (Execute(cfg, p.state, calls[k]).1, Execute(cfg, p.state, calls[k]).2)
  {
    hide Execute;
    var n := |calls| - 1;
    if k < n {
      RunPrefix(cfg, start, calls[..n], k);
      assert calls[..n][..k] == calls[..k];
    }
  }

  /** In every run a hit answers with the last attempt for its command, which succeeded with these very
      arguments and is at most `cacheTimeout` old when the cache is looked at. */
  lemma HitsAreFresh(cfg: Config, start: nat, calls: seq<Call>, k: nat)
    requires k < |calls| && ClockFits(RunOf(cfg, start, calls))
    ensures var r := RunOf(cfg, start, calls);
            var last := LastAttempt(r.log[..k], calls[k].command);
            r.log[k].Hit? ==>
              && last.Last? && last.entry.arguments == calls[k].arguments
              && r.replies[k].Ok? && last.entry.answer == Answered(r.replies[k].response)
              && last.entry.end <= r.log[k].checked <= last.entry.end + cfg.cacheTimeout
  {
    hide Execute, LastAttempt, RunOf, Stamp;
    RunPrefix(cfg, start, calls, k);
    var p := RunOf(cfg, start, calls[..k]);
    ClockGrows(cfg, start, calls, k);
    CheckTime(cfg, p.state, calls[k]);
    if RunOf(cfg, start, calls).log[k].Hit? {
      HitExactly(cfg, start, calls[..k], calls[k]);
    }
  }

  lemma CheckTime(cfg: Config, st: State, call: Call)
    ensures var (st', _, e) := Execute(cfg, st, call);
            e.Hit? ==> e.checked == Stamp(st.now + call.untilCheck) == Stamp(st'.now)
  {}

  lemma {:induction false} ClockGrows(cfg: Config, start: nat, calls: seq<Call>, k: nat)
    requires k < |calls|
    ensures Stamp(Execute(cfg, RunOf(cfg, start, calls[..k]).state, calls[k]).0.now) <=
            Stamp(RunOf(cfg, start, calls).state.now)
  {
    hide Execute, Stamp;
    var n := |calls| - 1;
    if k < n {
      ClockGrows(cfg, start, calls[..n], k);
      assert calls[..n][..k] == calls[..k];
      AttemptTimes(cfg, RunOf(cfg, start, calls[..n]).state, calls[n]);
      StampGrows(RunOf(cfg, start, calls[..n]).state.now, RunOf(cfg, start, calls).state.now);
    }
  }

  // ---- Spacing ----

  predicate Success(e: Entry) { e.Attempt? && e.answer.Answered? }

  predicate Succeeded(log: seq<Entry>) { exists i :: 0 <= i < |log| && Success(log[i]) }

  /** The k-th entry, if it is a device call after a success, started at least `delay` ms after the last
      success ended. */
  predicate Spaced(cfg: Config, log: seq<Entry>, k: nat)
    requires k < |log|
  {
    log[k].Attempt? && Succeeded(log[..k]) ==> Stamp(log[k].start) >= LastSuccess(log[..k]) + cfg.delay
  }

  /** The clock readings of a run fit 64 bits. */
  predicate ClockFits(r: Run) { Stamp(r.state.now) < U64 }

  /** From its second millisecond on, the clock cannot give a success the end time 0, which the code takes
      to mean that there was none. */
  const ONE_MS := 1000

  predicate EndsAfter(log: seq<Entry>, start: nat) {
    forall i :: 0 <= i < |log| && Success(log[i]) ==> log[i].end >= Stamp(start)
  }

  lemma {:induction false} NothingEndsBefore(cfg: Config, start: nat, calls: seq<Call>)
    ensures EndsAfter(RunOf(cfg, start, calls).log, start)
  {
    hide Execute, Stamp;
    if calls != [] {
      var n := |calls| - 1;
      var p := RunOf(cfg, start, calls[..n]);
      NothingEndsBefore(cfg, start, calls[..n]);
      RunConsistent(cfg, start, calls[..n]);
      AttemptTimes(cfg, p.state, calls[n]);
      StampGrows(start, Execute(cfg, p.state, calls[n]).0.now);
    }
  }

  /** The last success is a success. */
  lemma {:induction false} LastSuccessEnds(log: seq<Entry>, start: nat)
    requires EndsAfter(log, start) && Succeeded(log)
    ensures LastSuccess(log) >= Stamp(start)
  {
    hide Stamp;
    var n := |log| - 1;
    if !Success(log[n]) {
      var i :| 0 <= i < |log| && Success(log[i]);
      assert Success(log[..n][i]);
      LastSuccessEnds(log[..n], start);
    }
  }

  lemma SleepReaches(now: nat, end: nat, delay: nat, rest: nat)
    requires end <= Stamp(now) && Stamp(now) - end < delay
    ensures Stamp(now + (delay - (Stamp(now) - end)) * 1000 + rest) >= end + delay
  {
    var missing := delay - (Stamp(now) - end);
    assert now + missing * 1000 + rest >= 1000 * (Stamp(now) + missing);
  }

  lemma CallSpaced(cfg: Config, st: State, call: Call)
    requires cfg.delay * 1000 < U32 && cfg.delay != 0 && st.endTime != 0
    requires st.endTime <= Stamp(st.now) && Stamp(AtStart(cfg, st, call).now) < U64
    ensures Stamp(AtStart(cfg, st, call).now) >= st.endTime + cfg.delay
  {
    var asleep := Tick(Evict(Tick(st, call.untilCheck), call.command), call.untilDelay);
    assert Stamp(st.now) <= Stamp(asleep.now) <= Stamp(AtStart(cfg, st, call).now);
    NoWrap(Stamp(asleep.now), st.endTime);
    var diff := Stamp(asleep.now) - st.endTime;
    if diff < cfg.delay {
      assert (cfg.delay - diff) * 1000 <= cfg.delay * 1000;
      SleepReaches(asleep.now, st.endTime, cfg.delay, call.untilStart);
    }
  }

  lemma AttemptTimes(cfg: Config, st: State, call: Call)
    ensures var (st', _, entry) := Execute(cfg, st, call);
            && st.now <= st'.now
            && (entry.Attempt? ==>
                  && entry.start == AtStart(cfg, st, call).now && st.now <= entry.start <= st'.now
                  && entry.end == Stamp(st'.now))
  {}

  lemma StampGrows(a: nat, b: nat)
    requires a <= b
    ensures Stamp(a) <= Stamp(b)
  {}

  /** One step: the entry of a call made in a state that agrees with its history. */
  lemma StepSpaced(cfg: Config, st: State, log: seq<Entry>, call: Call)
    requires cfg.delay * 1000 < U32 && st.endTime == LastSuccess(log) && Past(st, log)
    requires Succeeded(log) ==> st.endTime != 0
    requires Stamp(Execute(cfg, st, call).0.now) < U64
    ensures Spaced(cfg, log + [Execute(cfg, st, call).2], |log|)
  {
    hide Execute, AtStart, Stamp, LastSuccess;
    var (st', _, entry) := Execute(cfg, st, call);
    assert (log + [entry])[..|log|] == log;
    AttemptTimes(cfg, st, call);
    if entry.Attempt? {
      StampGrows(st.now, entry.start);
      StampGrows(entry.start, st'.now);
      if Succeeded(log) && cfg.delay != 0 {
        CallSpaced(cfg, st, call);
      }
    }
  }

  lemma SpacedKept(cfg: Config, log: seq<Entry>, entry: Entry, k: nat)
    requires k < |log|
    ensures Spaced(cfg, log + [entry], k) <==> Spaced(cfg, log, k)
  {
    assert (log + [entry])[..k] == log[..k];
  }

  lemma {:induction false} RunsAreSpaced(cfg: Config, start: nat, calls: seq<Call>, k: nat)
    requires cfg.delay * 1000 < U32 && start >= ONE_MS && k < |calls| && ClockFits(RunOf(cfg, start, calls))
    ensures Spaced(cfg, RunOf(cfg, start, calls).log, k)
  {
    hide Execute, Spaced, Stamp, Past, LastSuccess;
    var n := |calls| - 1;
    var p := RunOf(cfg, start, calls[..n]);
    RunConsistent(cfg, start, calls[..n]);
    AttemptTimes(cfg, p.state, calls[n]);
    if k < n {
      StampGrows(p.state.now, RunOf(cfg, start, calls).state.now);
      RunsAreSpaced(cfg, start, calls[..n], k);
      SpacedKept(cfg, p.log, Execute(cfg, p.state, calls[n]).2, k);
    } else {
      NothingEndsBefore(cfg, start, calls[..n]);
      SuccessShows(cfg, start, calls[..n]);
      StepSpaced(cfg, p.state, p.log, calls[n]);
    }
  }

  /** Once the clock has passed its first millisecond, the end time 0 means that nothing succeeded. */
  lemma SuccessShows(cfg: Config, start: nat, calls: seq<Call>)
    requires start >= ONE_MS
    ensures var r := RunOf(cfg, start, calls); Succeeded(r.log) ==> r.state.endTime != 0
  {
    hide RunOf, LastSuccess;
    RunConsistent(cfg, start, calls);
    NothingEndsBefore(cfg, start, calls);
    if Succeeded(RunOf(cfg, start, calls).log) {
      LastSuccessEnds(RunOf(cfg, start, calls).log, start);
    }
  }

  // ---- The wait ----

  /** When the k-th call of a run, a missed one, reads the clock to see whether it must wait. */
  function AskedAt(cfg: Config, start: nat, calls: seq<Call>, k: nat): nat
    requires k < |calls|
  {
    RunOf(cfg, start, calls[..k]).state.now + calls[k].untilCheck + calls[k].untilDelay
  }

  /** The wait of a device call, exactly: none without delay or success, and none when the delay has passed;
      otherwise the missing milliseconds, in microseconds that are cut to 32 bits. */
  lemma WaitsExactly(cfg: Config, start: nat, calls: seq<Call>, k: nat)
    requires start >= ONE_MS && k < |calls| && ClockFits(RunOf(cfg, start, calls))
    requires RunOf(cfg, start, calls).log[k].Attempt?
    ensures var log := RunOf(cfg, start, calls).log;
            var asked := AskedAt(cfg, start, calls, k);
            var due := LastSuccess(log[..k]) + cfg.delay;
            log[k].start == asked + calls[k].untilStart +
                            (if cfg.delay != 0 && Succeeded(log[..k]) && Stamp(asked) < due
                             then ((due - Stamp(asked)) * 1000) % 0x1_0000_0000 else 0)
  {
    hide RunOf, LastSuccess, Stamp, Succeeded, Execute;
    var p := RunOf(cfg, start, calls[..k]);
    RunPrefix(cfg, start, calls, k);
    RunConsistent(cfg, start, calls[..k]);
    SuccessShows(cfg, start, calls[..k]);
    NoSuccessShows(p.log);
    ClockGrows(cfg, start, calls, k);
    AttemptTimes(cfg, p.state, calls[k]);
    var asked := AskedAt(cfg, start, calls, k);
    StampGrows(p.state.now, asked);
    StampGrows(asked, Execute(cfg, p.state, calls[k]).0.now);
    NoWrap(Stamp(asked), p.state.endTime);
  }

  lemma {:induction false} NoSuccessShows(log: seq<Entry>)
    ensures !Succeeded(log) ==> LastSuccess(log) == 0
  {
    if log != [] && !Succeeded(log) {
      var n := |log| - 1;
      assert !Success(log[n]);
      assert forall i :: 0 <= i < n ==> log[..n][i] == log[i];
      NoSuccessShows(log[..n]);
    }
  }

  /** The wait is the least one: a call is not held up when nothing has succeeded or the delay has passed, and
      otherwise just until the clock shows the end of the last success plus the delay. */
  lemma LeastWait(cfg: Config, start: nat, calls: seq<Call>, k: nat)
    requires cfg.delay * 1000 < U32 && start >= ONE_MS && k < |calls| && ClockFits(RunOf(cfg, start, calls))
    requires RunOf(cfg, start, calls).log[k].Attempt?
    ensures var log := RunOf(cfg, start, calls).log;
            var asked := AskedAt(cfg, start, calls, k);
            var woken := log[k].start - calls[k].untilStart;
            var due := LastSuccess(log[..k]) + cfg.delay;
            if Succeeded(log[..k]) && Stamp(asked) < due then woken >= asked && Stamp(woken) == due else woken == asked
  {
    hide RunOf, LastSuccess, Succeeded, Stamp;
    WaitsExactly(cfg, start, calls, k);
    RunPrefix(cfg, start, calls, k);
    RunConsistent(cfg, start, calls[..k]);
    var log := RunOf(cfg, start, calls).log;
    var asked := AskedAt(cfg, start, calls, k);
    StampGrows(RunOf(cfg, start, calls[..k]).state.now, asked);
    if Stamp(asked) < LastSuccess(log[..k]) + cfg.delay {
      WokenWhenDue(cfg.delay, LastSuccess(log[..k]), asked);
    }
  }

  lemma WokenWhenDue(delay: nat, last: nat, asked: nat)
    requires delay * 1000 < U32 && last <= Stamp(asked) < last + delay
    ensures var wait := (last + delay - Stamp(asked)) * 1000;
            wait % 0x1_0000_0000 == wait && Stamp(asked + wait) == last + delay
  {
    var missing := last + delay - Stamp(asked);
    assert missing * 1000 <= delay * 1000;
    assert (asked + missing * 1000) / 1000 == asked / 1000 + missing;
  }

  lemma RunOfTwo(cfg: Config, start: nat, a: Call, b: Call)
    ensures var (st, _, e) := Execute(cfg, Initial(start), a); var (end, _, f) := Execute(cfg, st, b);
            RunOf(cfg, start, [a, b]).log == [e, f] && RunOf(cfg, start, [a, b]).state == end
  {
    hide Execute;
    assert [a, b][..1] == [a] && [a][..0] == [];
    assert RunOf(cfg, start, [a]).state == Execute(cfg, Initial(start), a).0;
  }

  lemma FirstSuccess(e: Entry)
    requires e.Attempt? && e.answer.Answered?
    ensures LastSuccess([e]) == e.end
  {}

  /** Two successful calls without a pause. */
  const TWO_QUICK_CALLS: seq<Call> :=
    [Call(GetGeneralStatus, [], 0, 0, 0, 0, Answered(Response(""))),
     Call(GetWorkingMode, [], 0, 0, 0, 0, Answered(Response("")))]

  /** The second of two quick calls starts after a wait that depends on the end time of the first. */
  lemma QuickCalls(cfg: Config, start: nat)
    ensures var r := RunOf(cfg, start, TWO_QUICK_CALLS);
            var wait := if cfg.delay != 0 && Stamp(start) != 0 then (cfg.delay * 1000) % U32 else 0;
            && r.state.now == start + wait && |r.log| == 2 && Succeeded(r.log[..1])
            && LastSuccess(r.log[..1]) == Stamp(start) && r.log[1].Attempt? && r.log[1].start == start + wait
  {
    hide RunOf, LastSuccess;
    var a, b := TWO_QUICK_CALLS[0], TWO_QUICK_CALLS[1];
    RunOfTwo(cfg, start, a, b);
    var (st, _, e) := Execute(cfg, Initial(start), a);
    assert st.endTime == e.end == Stamp(start) && st.now == start;
    var (_, _, f) := Execute(cfg, st, b);
    assert [e, f][..1] == [e];
    FirstSuccess(e);
    assert Success([e][0]);
  }

  /** When the delay in microseconds does not fit the argument of `usleep`, two calls in quick
      succession break the spacing. */
  lemma TooLongADelayFails(cfg: Config)
    requires cfg.delay * 1000 >= U32
    ensures var r := RunOf(cfg, ONE_MS, TWO_QUICK_CALLS); ClockFits(r) && |r.log| == 2 && !Spaced(cfg, r.log, 1)
  {
    hide RunOf, LastSuccess;
    QuickCalls(cfg, ONE_MS);
    assert (cfg.delay * 1000) % U32 < U32 <= cfg.delay * 1000;
  }

  /** A success in the first millisecond of the clock is not seen, so the next call does not wait. */
  lemma FirstMillisecondFails(cfg: Config)
    requires cfg.delay != 0
    ensures var r := RunOf(cfg, 0, TWO_QUICK_CALLS); ClockFits(r) && |r.log| == 2 && !Spaced(cfg, r.log, 1)
  {
    hide RunOf, LastSuccess;
    QuickCalls(cfg, 0);
  }

  /** All runs whose clock starts at `from` or later are spaced. */
  ghost predicate AllSpaced(cfg: Config, from: nat) {
    forall start: nat, calls: seq<Call>, k: nat ::
      start >= from && k < |calls| && ClockFits(RunOf(cfg, start, calls)) ==>
        Spaced(cfg, RunOf(cfg, start, calls).log, k)
  }

  /** Device calls are spaced by the delay in all runs of a clock past its first millisecond exactly when
      the delay in microseconds fits the 32 bits that `usleep` takes; and in all runs whatsoever only when
      there is no delay, because the end time 0 also stands for "no success yet". */
  lemma SpacingExactly(cfg: Config)
    ensures AllSpaced(cfg, ONE_MS) <==> cfg.delay * 1000 < U32
    ensures AllSpaced(cfg, 0) <==> cfg.delay == 0
  {
    hide RunOf, Spaced;
    if cfg.delay * 1000 < U32 {
      forall start: nat, calls: seq<Call>, k: nat
        | start >= ONE_MS && k < |calls| && ClockFits(RunOf(cfg, start, calls))
        ensures Spaced(cfg, RunOf(cfg, start, calls).log, k)
      {
        RunsAreSpaced(cfg, start, calls, k);
      }
    } else {
      TooLongADelayFails(cfg);
      assert !Spaced(cfg, RunOf(cfg, ONE_MS, TWO_QUICK_CALLS).log, 1);
    }
    if cfg.delay == 0 {
      forall start: nat, calls: seq<Call>, k: nat | k < |calls| && ClockFits(RunOf(cfg, start, calls))
        ensures Spaced(cfg, RunOf(cfg, start, calls).log, k)
      {
        UndelayedRunsAreSpaced(cfg, start, calls, k);
      }
    } else {
      FirstMillisecondFails(cfg);
      assert !Spaced(cfg, RunOf(cfg, 0, TWO_QUICK_CALLS).log, 1);
    }
  }

  /** Without a delay nothing more is asked than that calls come one after the other. */
  lemma UndelayedRunsAreSpaced(cfg: Config, start: nat, calls: seq<Call>, k: nat)
    requires cfg.delay == 0 && k < |calls|
    ensures Spaced(cfg, RunOf(cfg, start, calls).log, k)
  {
    hide Execute, LastSuccess, Stamp, RunOf;
    var p := RunOf(cfg, start, calls[..k]);
    RunPrefix(cfg, start, calls, k);
    RunConsistent(cfg, start, calls[..k]);
    AttemptTimes(cfg, p.state, calls[k]);
    var e := RunOf(cfg, start, calls).log[k];
    if e.Attempt? {
      StampGrows(p.state.now, e.start);
    }
  }
}
