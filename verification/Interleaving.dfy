/** Any number of connection threads around the one mutex of the daemon: a step machine, its invariant
    over every interleaving, and its reduction to one call after the other
    (src/server/server.cc:123-173, entered from src/server/connection.cc:206-223). */
module Interleaving {
  import opened Integers
  import opened Types
  import opened Server
  import opened ServerHistory

  type Tid = nat

  /** A read or write call on the device. */
  datatype Io = Write(data: string) | Read(data: string)

  /** Where a thread is. Everything from `Looking` to `Leaving` runs with the mutex held. The clock
      readings are kept as the code takes them: at the cache test, before the delay, at the device call. */
  datatype Local =
    | Idle
    | Waiting(ticket: nat, command: CommandType, arguments: seq<string>)
    | Looking(ticket: nat, command: CommandType, arguments: seq<string>)
    | Missed(ticket: nat, command: CommandType, arguments: seq<string>, checked: nat)
    | InDevice(ticket: nat, command: CommandType, arguments: seq<string>, checked: nat, asked: nat, late: nat,
               start: nat, ios: seq<Io>)
    | Leaving(ticket: nat, command: CommandType, arguments: seq<string>, reply: Reply)
    | Served(ticket: nat, command: CommandType, arguments: seq<string>, reply: Reply)
  {
    predicate Inside() { Looking? || Missed? || InDevice? || Leaving? }

    predicate Pending() { Waiting? || Looking? || Missed? || InDevice? }

    predicate Done() { Leaving? || Served? }
  }

  /** A concluded call: what was asked, what was replied, the clock readings of the thread itself (in
      `entry`), and its device calls. */
  datatype Completed = Completed(ticket: nat, thread: Tid, call: Call, reply: Reply, entry: Entry, ios: seq<Io>)

  datatype System = System(
    shared: State,                    // what the mutex protects, and the clock
    holder: seq<Tid>,                 // the threads inside the critical section
    locals: map<Tid, Local>,
    transcript: seq<(Tid, Io)>,       // the device calls, in the order in which they happen
    completed: seq<Completed>,        // history: the calls in the order in which they conclude
    concludedAt: nat,                 // history: the clock when the last of them did
    requests: seq<nat>)               // history: for each request, by its ticket, how many calls had concluded

  function Start(now: nat): System { System(Initial(now), [], map[], [], [], now, []) }

  function LocalOf(sys: System, t: Tid): Local { if t in sys.locals then sys.locals[t] else Idle }

  function Move(sys: System, t: Tid, l: Local): System { sys.(locals := sys.locals[t := l]) }

  /** A step of one thread, or time passing for everybody. */
  datatype Step =
    | Request(t: Tid, command: CommandType, arguments: seq<string>)
    | Acquire(t: Tid)
    | Check(t: Tid)
    | Rest(t: Tid, late: nat)
    | DeviceIo(t: Tid, io: Io)
    | Conclude(t: Tid, answer: Answer)
    | Release(t: Tid)
    | Pass(d: nat)

  predicate Enabled(sys: System, step: Step) {
    match step
    case Request(t, _, _) => LocalOf(sys, t).Idle? || LocalOf(sys, t).Served?
    case Acquire(t) => LocalOf(sys, t).Waiting? && sys.holder == []
    case Check(t) => LocalOf(sys, t).Looking?
    case Rest(t, _) => LocalOf(sys, t).Missed?
    case DeviceIo(t, _) => LocalOf(sys, t).InDevice?
    case Conclude(t, _) => LocalOf(sys, t).InDevice?
    case Release(t) => LocalOf(sys, t).Leaving?
    case Pass(_) => true
  }

  function Minus(a: nat, b: nat): nat { if a >= b then a - b else 0 }

  function HitCall(sys: System, l: Local): Call
    requires l.Looking?
  {
    Call(l.command, l.arguments, Minus(sys.shared.now, sys.concludedAt), 0, 0, 0, Other)
  }

  function DeviceCall(sys: System, l: Local, answer: Answer): Call
    requires l.InDevice?
  {
    Call(l.command, l.arguments, Minus(l.checked, sys.concludedAt), Minus(l.asked, l.checked), l.late,
         Minus(sys.shared.now, l.start), answer)
  }

  /** The record of a call that the cache answers. */
  function FromCache(sys: System, t: Tid, l: Local, response: Response): Completed
    requires l.Looking?
  {
    Completed(l.ticket, t, HitCall(sys, l), Ok(response),
              Hit(l.command, l.arguments, response, Stamp(sys.shared.now)), [])
  }

  /** The record of a call that went to the device. */
  function FromDevice(sys: System, t: Tid, l: Local, answer: Answer): Completed
    requires l.InDevice?
  {
    Completed(l.ticket, t, DeviceCall(sys, l, answer), ReplyTo(answer),
              Attempt(l.command, l.arguments, l.start, Stamp(sys.shared.now), answer), l.ios)
  }

  function Log(sys: System, done: Completed): System {
    sys.(completed := sys.completed + [done], concludedAt := sys.shared.now)
  }

  function Next(cfg: Config, sys: System, step: Step): System
    requires Enabled(sys, step)
  {
    match step
    case Request(t, command, arguments) =>
      Move(sys.(requests := sys.requests + [|sys.completed|]), t, Waiting(|sys.requests|, command, arguments))
    case Acquire(t) =>
      var l := LocalOf(sys, t);
      Move(sys.(holder := [t]), t, Looking(l.ticket, l.command, l.arguments))
    case Check(t) =>
      var l := LocalOf(sys, t);
      if IsHit(cfg, sys.shared, l.command, l.arguments) then
        var response := sys.shared.cache[l.command].response;
        Move(Log(sys, FromCache(sys, t, l, response)), t, Leaving(l.ticket, l.command, l.arguments, Ok(response)))
      else
        Move(sys.(shared := Evict(sys.shared, l.command)), t, Missed(l.ticket, l.command, l.arguments, sys.shared.now))
    case Rest(t, late) =>
      var l := LocalOf(sys, t);
      var rested := Tick(Sleep(cfg, sys.shared), late);
      Move(sys.(shared := rested), t,
           InDevice(l.ticket, l.command, l.arguments, l.checked, sys.shared.now, late, rested.now, []))
    case DeviceIo(t, io) =>
      var l := LocalOf(sys, t);
      Move(sys.(transcript := sys.transcript + [(t, io)]), t, l.(ios := l.ios + [io]))
    case Conclude(t, answer) =>
      var l := LocalOf(sys, t);
      Move(Log(sys, FromDevice(sys, t, l, answer)).(shared := Finish(cfg, sys.shared, l.command, l.arguments, answer)),
           t, Leaving(l.ticket, l.command, l.arguments, ReplyTo(answer)))
    case Release(t) =>
      var l := LocalOf(sys, t);
      Move(sys.(holder := []), t, Served(l.ticket, l.command, l.arguments, l.reply))
    case Pass(d) => sys.(shared := Tick(sys.shared, d))
  }

  // ---- The invariant ----

  function Calls(completed: seq<Completed>): (calls: seq<Call>)
    ensures |calls| == |completed|
  {
    seq(|completed|, i requires 0 <= i < |completed| => completed[i].call)
  }

  /** What the threads have noted down, in the order of conclusion. */
  function Entries(completed: seq<Completed>): (log: seq<Entry>)
    ensures |log| == |completed|
  {
    seq(|completed|, i requires 0 <= i < |completed| => completed[i].entry)
  }

  /** The concluded calls, executed one after the other. */
  function Sequential(cfg: Config, start: nat, sys: System): Run {
    RunOf(cfg, start, Calls(sys.completed))
  }

  function At(st: State, now: nat): State { st.(now := now) }

  /** The thread inside the critical section has done to the shared state what its phase says, starting
      from `base`, the state that the concluded calls have left. */
  predicate PhaseOf(cfg: Config, sys: System, base: State, l: Local) {
    match l
    case Missed(_, c, a, checked) =>
      && sys.concludedAt <= checked <= sys.shared.now && !IsHit(cfg, At(base, checked), c, a)
      && sys.shared == At(Evict(base, c), sys.shared.now)
    case InDevice(_, c, a, checked, asked, late, start, _) =>
      && sys.concludedAt <= checked <= asked && !IsHit(cfg, At(base, checked), c, a)
      && start == Tick(Sleep(cfg, At(Evict(base, c), asked)), late).now && start <= sys.shared.now
      && sys.shared == At(Evict(base, c), sys.shared.now)
    case _ => sys.shared == At(base, sys.shared.now)
  }

  function Tagged(t: Tid, ios: seq<Io>): seq<(Tid, Io)> {
    seq(|ios|, i requires 0 <= i < |ios| => (t, ios[i]))
  }

  /** The device calls of whole transactions, one transaction after the other. */
  function Blocks(completed: seq<Completed>): seq<(Tid, Io)> {
    if completed == [] then []
    else
      var n := |completed| - 1;
      Blocks(completed[..n]) + Tagged(completed[n].thread, completed[n].ios)
  }

  /** The device calls of the transaction under way, if there is one. */
  function UnderWay(sys: System): seq<(Tid, Io)> {
    if sys.holder == [] then []
    else
      var l := LocalOf(sys, sys.holder[0]);
      if l.InDevice? then Tagged(sys.holder[0], l.ios) else []
  }

  ghost predicate Exclusion(sys: System) {
    && |sys.holder| <= 1
    && forall t: Tid :: LocalOf(sys, t).Inside() <==> sys.holder == [t]
  }

  predicate SharedInvariant(cfg: Config, start: nat, sys: System) {
    var base := Sequential(cfg, start, sys).state;
    && base.now == sys.concludedAt <= sys.shared.now
    && (sys.holder == [] ==> sys.shared == At(base, sys.shared.now))
    && (sys.holder != [] ==> PhaseOf(cfg, sys, base, LocalOf(sys, sys.holder[0])))
  }

  /** Replies and notes of the threads are those of the sequential run. */
  predicate RecordsMatch(cfg: Config, start: nat, sys: System) {
    var run := Sequential(cfg, start, sys);
    && Entries(sys.completed) == run.log
    && forall i :: 0 <= i < |sys.completed| ==> sys.completed[i].reply == run.replies[i]
  }

  /** The record of the very request to which thread `t` has the answer. */
  predicate IsRecord(done: Completed, t: Tid, l: Local)
    requires l.Done()
  {
    && done.ticket == l.ticket && done.thread == t
    && done.call.command == l.command && done.call.arguments == l.arguments && done.reply == l.reply
  }

  /** No request was made before itself: each record lies behind the calls that had concluded when its
      request was made, and no request has two. */
  predicate RecordsOrdered(sys: System) {
    && (forall n :: 0 <= n < |sys.requests| ==> sys.requests[n] <= |sys.completed|)
    && (forall k :: 0 <= k < |sys.completed| ==>
          sys.completed[k].ticket < |sys.requests| && sys.requests[sys.completed[k].ticket] <= k)
    && (forall j, k :: 0 <= j < k < |sys.completed| ==> sys.completed[j].ticket != sys.completed[k].ticket)
  }

  /** A thread under way holds a ticket without record; a thread with an answer holds the ticket of its
      record. */
  predicate TicketHeld(sys: System, t: Tid) {
    var l := LocalOf(sys, t);
    && (!l.Idle? ==> l.ticket < |sys.requests|)
    && (l.Pending() ==> forall k :: 0 <= k < |sys.completed| ==> sys.completed[k].ticket != l.ticket)
    && (l.Done() ==> exists k :: 0 <= k < |sys.completed| && IsRecord(sys.completed[k], t, l))
  }

  predicate SameTicket(sys: System, t: Tid, u: Tid) {
    var l, m := LocalOf(sys, t), LocalOf(sys, u);
    !l.Idle? && !m.Idle? && l.ticket == m.ticket
  }

  ghost predicate Tickets(sys: System) {
    && RecordsOrdered(sys)
    && (forall t: Tid :: TicketHeld(sys, t))
    && (forall t: Tid, u: Tid :: SameTicket(sys, t, u) ==> t == u)
  }

  predicate Whole(sys: System) { sys.transcript == Blocks(sys.completed) + UnderWay(sys) }

  ghost predicate Invariant(cfg: Config, start: nat, sys: System) {
    && Exclusion(sys) && SharedInvariant(cfg, start, sys) && RecordsMatch(cfg, start, sys)
    && Tickets(sys) && Whole(sys)
  }

  // ---- Every step keeps it ----

  lemma KeepsExclusion(cfg: Config, sys: System, step: Step)
    requires Exclusion(sys) && Enabled(sys, step)
    ensures Exclusion(Next(cfg, sys, step))
  {
    hide IsHit, Finish, Sleep;
    var sys' := Next(cfg, sys, step);
    if !step.Pass? {
      forall t: Tid
        ensures LocalOf(sys', t).Inside() <==> sys'.holder == [t]
      {
        assert LocalOf(sys, t).Inside() <==> sys.holder == [t];
        assert LocalOf(sys, step.t).Inside() <==> sys.holder == [step.t];
        assert t != step.t ==> LocalOf(sys', t) == LocalOf(sys, t);
      }
    }
  }

  lemma CallsGrow(completed: seq<Completed>, done: Completed)
    ensures Calls(completed + [done]) == Calls(completed) + [done.call]
    ensures Entries(completed + [done]) == Entries(completed) + [done.entry]
  {}

  /** Concluding a call extends the sequential run by that call. */
  lemma SequentialGrows(cfg: Config, start: nat, sys: System, sys': System, done: Completed)
    requires sys'.completed == sys.completed + [done]
    ensures var r, r' := Sequential(cfg, start, sys), Sequential(cfg, start, sys');
            var (st, reply, entry) := Execute(cfg, r.state, done.call);
            r' == Run(st, r.replies + [reply], r.log + [entry])
  {
    CallsGrow(sys.completed, done);
    assert (Calls(sys.completed) + [done.call])[..|sys.completed|] == Calls(sys.completed);
  }

  /** A record that says what executing its call gives keeps the records matched. */
  lemma RecordsGrow(cfg: Config, start: nat, sys: System, sys': System, done: Completed)
    requires RecordsMatch(cfg, start, sys) && sys'.completed == sys.completed + [done]
    requires var (_, reply, entry) := Execute(cfg, Sequential(cfg, start, sys).state, done.call);
             done.reply == reply && done.entry == entry
    ensures RecordsMatch(cfg, start, sys')
    ensures Sequential(cfg, start, sys').state == Execute(cfg, Sequential(cfg, start, sys).state, done.call).0
  {
    hide Execute, RunOf, Calls, Entries;
    SequentialGrows(cfg, start, sys, sys', done);
    CallsGrow(sys.completed, done);
    var run, run' := Sequential(cfg, start, sys), Sequential(cfg, start, sys');
    forall i | 0 <= i < |sys'.completed|
      ensures sys'.completed[i].reply == run'.replies[i]
    {
      if i < |sys.completed| {
        assert sys'.completed[i].reply == run.replies[i];
      }
    }
  }

  lemma HitIsExecute(cfg: Config, base: State, sys: System, t: Tid, l: Local)
    requires l.Looking? && base.now == sys.concludedAt <= sys.shared.now
    requires sys.shared == At(base, sys.shared.now) && IsHit(cfg, sys.shared, l.command, l.arguments)
    ensures var done := FromCache(sys, t, l, sys.shared.cache[l.command].response);
            Execute(cfg, base, done.call) == (sys.shared, done.reply, done.entry)
  {
    assert Tick(base, HitCall(sys, l).untilCheck) == sys.shared;
  }

  lemma DeviceIsExecute(cfg: Config, base: State, sys: System, t: Tid, l: Local, answer: Answer)
    requires l.InDevice? && base.now == sys.concludedAt && PhaseOf(cfg, sys, base, l)
    ensures var done := FromDevice(sys, t, l, answer);
            Execute(cfg, base, done.call) ==
            (Finish(cfg, sys.shared, l.command, l.arguments, answer), done.reply, done.entry)
  {
    hide IsHit, Finish;
    var call := DeviceCall(sys, l, answer);
    assert Tick(base, call.untilCheck) == At(base, l.checked);
    assert Tick(Evict(At(base, l.checked), l.command), call.untilDelay) == At(Evict(base, l.command), l.asked);
    assert AtStart(cfg, base, call) == At(Evict(base, l.command), l.start);
    assert AtEnd(cfg, base, call) == sys.shared;
  }

  lemma KeepsShared(cfg: Config, start: nat, sys: System, step: Step)
    requires Invariant(cfg, start, sys) && Enabled(sys, step)
    ensures SharedInvariant(cfg, start, Next(cfg, sys, step)) && RecordsMatch(cfg, start, Next(cfg, sys, step))
  {
    hide IsHit, Finish, Execute, RunOf, Tickets, Entries, Calls;
    var sys', base := Next(cfg, sys, step), Sequential(cfg, start, sys).state;
    match step
    case Check(t) =>
      var l := LocalOf(sys, t);
      assert l.Inside() && sys.holder == [t];
      if IsHit(cfg, sys.shared, l.command, l.arguments) {
        HitIsCached(cfg, sys.shared, l.command, l.arguments);
        HitIsExecute(cfg, base, sys, t, l);
        RecordsGrow(cfg, start, sys, sys', FromCache(sys, t, l, sys.shared.cache[l.command].response));
      } else {
        assert sys'.completed == sys.completed;
      }
    case Conclude(t, answer) =>
      var l := LocalOf(sys, t);
      assert l.Inside() && sys.holder == [t];
      DeviceIsExecute(cfg, base, sys, t, l, answer);
      RecordsGrow(cfg, start, sys, sys', FromDevice(sys, t, l, answer));
      FinishKeepsClock(cfg, sys.shared, l.command, l.arguments, answer);
    case Pass(_) => assert sys'.completed == sys.completed;
    case _ =>
      assert sys'.completed == sys.completed;
      assert LocalOf(sys, step.t).Inside() <==> sys.holder == [step.t];
  }

  lemma HitIsCached(cfg: Config, st: State, c: CommandType, a: seq<string>)
    requires IsHit(cfg, st, c, a)
    ensures c in st.cache
  {}

  lemma FinishKeepsClock(cfg: Config, st: State, c: CommandType, a: seq<string>, answer: Answer)
    ensures Finish(cfg, st, c, a, answer).now == st.now
  {}

  /** What a step does to the records: nothing, or one more request, or one more record for the ticket
      that the thread holds. */
  lemma StepRecords(cfg: Config, sys: System, step: Step)
    requires Enabled(sys, step)
    ensures var sys' := Next(cfg, sys, step);
            && (step.Request? ==>
                  && sys'.completed == sys.completed && sys'.requests == sys.requests + [|sys.completed|]
                  && LocalOf(sys', step.t).Pending() && LocalOf(sys', step.t).ticket == |sys.requests|)
            && (!step.Request? ==> sys'.requests == sys.requests)
            && (!step.Request? && !step.Pass? ==>
                  && !LocalOf(sys, step.t).Idle? && !LocalOf(sys', step.t).Idle?
                  && LocalOf(sys', step.t).ticket == LocalOf(sys, step.t).ticket)
            && (!step.Pass? ==> forall t: Tid :: t != step.t ==> LocalOf(sys', t) == LocalOf(sys, t))
            && (step.Pass? ==> sys'.locals == sys.locals)
            && (if sys'.completed == sys.completed then
                  step.Request? || step.Pass? ||
                  (LocalOf(sys', step.t).Pending() && LocalOf(sys, step.t).Pending()) ||
                  (LocalOf(sys, step.t).Leaving? && IsServed(LocalOf(sys, step.t), LocalOf(sys', step.t)))
                else
                  && !step.Request? && !step.Pass?
                  && LocalOf(sys, step.t).Pending() && LocalOf(sys', step.t).Leaving?
                  && |sys'.completed| == |sys.completed| + 1 && sys'.completed[..|sys.completed|] == sys.completed
                  && IsRecord(sys'.completed[|sys.completed|], step.t, LocalOf(sys', step.t)))
  {
    hide IsHit, Finish, Sleep;
  }

  predicate IsServed(l: Local, l': Local)
    requires l.Leaving?
  {
    l' == Served(l.ticket, l.command, l.arguments, l.reply)
  }

  lemma KeepsOrdered(cfg: Config, sys: System, step: Step)
    requires Tickets(sys) && Enabled(sys, step)
    ensures RecordsOrdered(Next(cfg, sys, step))
  {
    hide Next, Enabled;
    StepRecords(cfg, sys, step);
    if !step.Pass? {
      assert TicketHeld(sys, step.t);
    }
  }

  lemma KeepsHeld(cfg: Config, sys: System, step: Step, t: Tid)
    requires Tickets(sys) && Enabled(sys, step)
    ensures TicketHeld(Next(cfg, sys, step), t)
  {
    hide Next, Enabled;
    StepRecords(cfg, sys, step);
    var sys' := Next(cfg, sys, step);
    var l, l' := LocalOf(sys, t), LocalOf(sys', t);
    assert TicketHeld(sys, t);
    if !step.Pass? {
      assert TicketHeld(sys, step.t);
      assert SameTicket(sys, t, step.t) ==> t == step.t;
    }
    if l'.Done() {
      if l.Done() {
        var k :| 0 <= k < |sys.completed| && IsRecord(sys.completed[k], t, l);
        assert sys'.completed[k] == sys.completed[k];
        RecordOfServed(sys.completed[k], t, l, l');
      } else {
        assert IsRecord(sys'.completed[|sys.completed|], t, l');
      }
    }
  }

  lemma RecordOfServed(done: Completed, t: Tid, l: Local, l': Local)
    requires l.Done() && l'.Done() && IsRecord(done, t, l)
    requires l' == l || (l.Leaving? && IsServed(l, l'))
    ensures IsRecord(done, t, l')
  {}

  lemma KeepsTickets(cfg: Config, sys: System, step: Step)
    requires Tickets(sys) && Enabled(sys, step)
    ensures Tickets(Next(cfg, sys, step))
  {
    hide Next, Enabled, RecordsOrdered;
    var sys' := Next(cfg, sys, step);
    KeepsOrdered(cfg, sys, step);
    forall t: Tid
      ensures TicketHeld(sys', t)
    {
      KeepsHeld(cfg, sys, step, t);
    }
    forall t: Tid, u: Tid | SameTicket(sys', t, u)
      ensures t == u
    {
      StepRecords(cfg, sys, step);
      assert TicketHeld(sys, t) && TicketHeld(sys, u);
      assert SameTicket(sys, t, u) ==> t == u;
    }
  }

  lemma KeepsWhole(cfg: Config, sys: System, step: Step)
    requires Exclusion(sys) && Whole(sys) && Enabled(sys, step)
    ensures Whole(Next(cfg, sys, step))
  {
    hide IsHit, Finish, Sleep;
    var sys' := Next(cfg, sys, step);
    if sys'.completed != sys.completed {
      assert sys'.completed[..|sys.completed|] == sys.completed;
    }
    match step
    case Pass(_) =>
    case DeviceIo(t, io) =>
      assert LocalOf(sys, t).Inside() && sys.holder == [t];
      var ios := LocalOf(sys, t).ios;
      assert Tagged(t, ios + [io]) == Tagged(t, ios) + [(t, io)];
    case _ =>
      assert LocalOf(sys, step.t).Inside() <==> sys.holder == [step.t];
  }

  // ---- All interleavings ----

  /** A behaviour of the machine: any steps, each enabled where it is taken. */
  predicate Behaviour(cfg: Config, start: nat, steps: seq<Step>, states: seq<System>) {
    && |states| == |steps| + 1 && states[0] == Start(start)
    && forall i :: 0 <= i < |steps| ==> Enabled(states[i], steps[i]) && states[i + 1] == Next(cfg, states[i], steps[i])
  }

  lemma StartsWell(cfg: Config, start: nat)
    ensures Invariant(cfg, start, Start(start))
  {
    assert Calls([]) == [] && Entries([]) == [];
  }

  lemma {:induction false} AlwaysInvariant(cfg: Config, start: nat, steps: seq<Step>, states: seq<System>, i: nat)
    requires Behaviour(cfg, start, steps, states) && i < |states|
    ensures Invariant(cfg, start, states[i])
  {
    hide Next, Enabled, Tickets, Exclusion, SharedInvariant, RecordsMatch, Whole;
    if i == 0 {
      StartsWell(cfg, start);
    } else {
      var sys, step := states[i - 1], steps[i - 1];
      AlwaysInvariant(cfg, start, steps, states, i - 1);
      KeepsExclusion(cfg, sys, step);
      KeepsShared(cfg, start, sys, step);
      KeepsTickets(cfg, sys, step);
      KeepsWhole(cfg, sys, step);
    }
  }

  /** Never two threads inside a device transaction, and the device sees the calls of one transaction
      after the other, none of them torn apart, whether they end well or throw. */
  lemma TransactionsAreWhole(cfg: Config, start: nat, steps: seq<Step>, states: seq<System>, i: nat)
    requires Behaviour(cfg, start, steps, states) && i < |states|
    ensures forall t: Tid, u: Tid :: LocalOf(states[i], t).InDevice? && LocalOf(states[i], u).InDevice? ==> t == u
    ensures forall t: Tid :: LocalOf(states[i], t).InDevice? ==>
              states[i].transcript == Blocks(states[i].completed) + Tagged(t, LocalOf(states[i], t).ios)
    ensures (forall t: Tid :: !LocalOf(states[i], t).InDevice?) ==>
              states[i].transcript == Blocks(states[i].completed)
  {
    hide SharedInvariant, RecordsMatch, Tickets, Behaviour;
    AlwaysInvariant(cfg, start, steps, states, i);
    var sys := states[i];
    forall t: Tid | LocalOf(sys, t).InDevice?
      ensures sys.holder == [t]
    {
      assert LocalOf(sys, t).Inside();
    }
  }

  /** Linearizability, first half. Every answered request has one record, its own, behind all calls that had
      concluded when the request was made. Its reply and its clock readings are those of `executeCommand`
      at this place in a run of the calls one after the other; and so is the state between calls. */
  lemma Serializable(cfg: Config, start: nat, steps: seq<Step>, states: seq<System>, i: nat, t: Tid)
    requires Behaviour(cfg, start, steps, states) && i < |states|
    ensures var sys, l := states[i], LocalOf(states[i], t);
            var run := RunOf(cfg, start, Calls(sys.completed));
            && (l.Served? ==>
                  l.ticket < |sys.requests| &&
                  exists k :: sys.requests[l.ticket] <= k < |sys.completed| && IsRecord(sys.completed[k], t, l)
                           && (forall j :: 0 <= j < |sys.completed| && sys.completed[j].ticket == l.ticket ==> j == k)
                           && run.replies[k] == l.reply && run.log[k] == sys.completed[k].entry)
            && (sys.holder == [] ==> sys.shared == At(run.state, sys.shared.now))
  {
    hide Behaviour, Exclusion, Whole, RunOf;
    AlwaysInvariant(cfg, start, steps, states, i);
    var sys, l := states[i], LocalOf(states[i], t);
    assert TicketHeld(sys, t);
    if l.Served? {
      var k :| 0 <= k < |sys.completed| && IsRecord(sys.completed[k], t, l);
      assert sys.requests[sys.completed[k].ticket] <= k;
      assert Entries(sys.completed)[k] == sys.completed[k].entry;
      assert Sequential(cfg, start, sys).replies[k] == sys.completed[k].reply;
    }
  }

  /** What has concluded stays at its place, and what a request saw when it was made is not forgotten. */
  lemma {:induction false} HistoryGrows(cfg: Config, start: nat, steps: seq<Step>, states: seq<System>, i: nat, j: nat)
    requires Behaviour(cfg, start, steps, states) && i <= j < |states|
    ensures states[i].completed <= states[j].completed && states[i].requests <= states[j].requests
    decreases j
  {
    hide Next, Enabled;
    if i < j {
      HistoryGrows(cfg, start, steps, states, i, j - 1);
      StepRecords(cfg, states[j - 1], steps[j - 1]);
    }
  }

  /** Linearizability, second half: the order respects real time. If a thread has its answer in state i and
      a request is made in a later step, then in every state after that the record of the answer comes
      before the record of the request. */
  lemma OrderIsRealTime(cfg: Config, start: nat, steps: seq<Step>, states: seq<System>, i: nat, j: nat, n: nat,
                        t: Tid, a: nat, b: nat)
    requires Behaviour(cfg, start, steps, states) && i <= j < n < |states|
    requires LocalOf(states[i], t).Served? && steps[j].Request?
    requires a < |states[n].completed| && states[n].completed[a].ticket == LocalOf(states[i], t).ticket
    requires b < |states[n].completed| &&
             states[n].completed[b].ticket == LocalOf(states[j + 1], steps[j].t).ticket
    ensures a < b
  {
    hide Next, Enabled, Exclusion, SharedInvariant, RecordsMatch, Whole;
    var l := LocalOf(states[i], t);
    AlwaysInvariant(cfg, start, steps, states, i);
    AlwaysInvariant(cfg, start, steps, states, n);
    HistoryGrows(cfg, start, steps, states, i, j);
    HistoryGrows(cfg, start, steps, states, j + 1, n);
    assert Enabled(states[j], steps[j]) && states[j + 1] == Next(cfg, states[j], steps[j]);
    StepRecords(cfg, states[j], steps[j]);
    assert TicketHeld(states[i], t);
    var k :| 0 <= k < |states[i].completed| && IsRecord(states[i].completed[k], t, l);
    assert states[n].completed[k] == states[i].completed[k];
    assert k == a;
    assert states[n].requests[|states[j].requests|] == |states[j].completed|;
  }

  /** In every reachable state: the thread that is about to look into the cache gets a hit exactly when the
      last device attempt for its command succeeded with identical arguments and ended at most
      `cacheTimeout` ago. */
  lemma HitsExactlyWhenFresh(cfg: Config, start: nat, steps: seq<Step>, states: seq<System>, i: nat, t: Tid)
    requires Behaviour(cfg, start, steps, states) && i < |states|
    requires LocalOf(states[i], t).Looking? && Stamp(states[i].shared.now) < U64
    ensures var sys, l := states[i], LocalOf(states[i], t);
            var last := LastAttempt(Entries(sys.completed), l.command);
            IsHit(cfg, sys.shared, l.command, l.arguments) <==>
              && last.Last? && last.entry.answer.Answered? && last.entry.arguments == l.arguments
              && last.entry.end <= Stamp(sys.shared.now) <= last.entry.end + cfg.cacheTimeout
  {
    hide Behaviour, Next, Enabled, Tickets, Whole, RunOf, Execute, LastAttempt, Stamp, IsHit;
    AlwaysInvariant(cfg, start, steps, states, i);
    var sys, l := states[i], LocalOf(states[i], t);
    assert l.Inside();
    var calls := Calls(sys.completed);
    var call := Call(l.command, l.arguments, sys.shared.now - sys.concludedAt, 0, 0, 0, Other);
    HitExactly(cfg, start, calls, call);
    HitOfCall(cfg, RunOf(cfg, start, calls).state, call);
    assert Tick(RunOf(cfg, start, calls).state, call.untilCheck) == sys.shared;
  }

  lemma HitOfCall(cfg: Config, st: State, call: Call)
    ensures Execute(cfg, st, call).2.Hit? <==> IsHit(cfg, Tick(st, call.untilCheck), call.command, call.arguments)
  {}

  /** Cache soundness under concurrency: every successful reply any thread has received is the device's own
      answer in its transaction; or it is the answer of the last attempt for the same command before it,
      made with identical arguments and at most `cacheTimeout` old when the thread looked. */
  lemma ServedGenuinely(cfg: Config, start: nat, steps: seq<Step>, states: seq<System>, i: nat, t: Tid)
    requires Behaviour(cfg, start, steps, states) && i < |states|
    requires LocalOf(states[i], t).Served? && LocalOf(states[i], t).reply.Ok? && Stamp(states[i].shared.now) < U64
    ensures var sys, l := states[i], LocalOf(states[i], t);
            exists k :: 0 <= k < |sys.completed| && IsRecord(sys.completed[k], t, l)
              && IsGenuine(cfg, Entries(sys.completed), k, l)
  {
    hide Behaviour, Exclusion, Whole, RunOf, LastAttempt, Stamp, Execute, Tickets;
    var sys, l := states[i], LocalOf(states[i], t);
    Serializable(cfg, start, steps, states, i, t);
    AlwaysInvariant(cfg, start, steps, states, i);
    var calls := Calls(sys.completed);
    var k :| 0 <= k < |calls| && IsRecord(sys.completed[k], t, l) && RunOf(cfg, start, calls).replies[k] == l.reply;
    StampGrows(sys.concludedAt, sys.shared.now);
    HitsAreFresh(cfg, start, calls, k);
    RunPrefix(cfg, start, calls, k);
    Changes(cfg, RunOf(cfg, start, calls[..k]).state, calls[k]);
    var (_, reply, entry) := Execute(cfg, RunOf(cfg, start, calls[..k]).state, calls[k]);
    assert Entries(sys.completed)[k] == entry && reply == l.reply;
    RecordSays(sys.completed[k], t, l);
    assert IsGenuine(cfg, Entries(sys.completed), k, l);
  }

  lemma RecordSays(done: Completed, t: Tid, l: Local)
    requires l.Done() && IsRecord(done, t, l)
    ensures done.call.command == l.command && done.call.arguments == l.arguments
  {}

  predicate IsGenuine(cfg: Config, log: seq<Entry>, k: nat, l: Local)
    requires k < |log| && l.Done() && l.reply.Ok?
  {
    var e, last := log[k], LastAttempt(log[..k], l.command);
    && e.command == l.command && e.arguments == l.arguments
    && (e.Attempt? ==> e.answer == Answered(l.reply.response))
    && (e.Hit? ==>
          && last.Last? && last.entry.arguments == l.arguments && last.entry.answer == Answered(l.reply.response)
          && last.entry.end <= e.checked <= last.entry.end + cfg.cacheTimeout)
  }

  /** Spacing under concurrency: the device calls of all threads together keep the delay, by the clock
      readings that the threads themselves have noted down. */
  lemma AllThreadsSpaced(cfg: Config, start: nat, steps: seq<Step>, states: seq<System>, i: nat, k: nat)
    requires Behaviour(cfg, start, steps, states) && i < |states| && k < |states[i].completed|
    requires cfg.delay * 1000 < U32 && start >= ONE_MS && Stamp(states[i].shared.now) < U64
    ensures Spaced(cfg, Entries(states[i].completed), k)
  {
    hide Behaviour, Spaced, Stamp, RunOf;
    AlwaysInvariant(cfg, start, steps, states, i);
    StampGrows(states[i].concludedAt, states[i].shared.now);
    RunsAreSpaced(cfg, start, Calls(states[i].completed), k);
  }

  /** And so does the call under way: a thread is in the device only if its transaction started at least
      the delay after the last success. */
  lemma DeviceIsSpaced(cfg: Config, start: nat, steps: seq<Step>, states: seq<System>, i: nat, t: Tid)
    requires Behaviour(cfg, start, steps, states) && i < |states| && LocalOf(states[i], t).InDevice?
    requires cfg.delay * 1000 < U32 && start >= ONE_MS && Stamp(states[i].shared.now) < U64
    ensures var sys := states[i];
            && (Succeeded(Entries(sys.completed)) ==>
                  Stamp(LocalOf(sys, t).start) >= LastSuccess(Entries(sys.completed)) + cfg.delay)
            && (sys.shared.endTime != 0 ==> Stamp(LocalOf(sys, t).start) >= sys.shared.endTime + cfg.delay)
  {
    hide Behaviour, Tickets, Whole, RunOf, LastSuccess, Stamp, IsHit, Succeeded;
    AlwaysInvariant(cfg, start, steps, states, i);
    var sys, l, calls := states[i], LocalOf(states[i], t), Calls(states[i].completed);
    var base := RunOf(cfg, start, calls).state;
    assert l.Inside();
    RunConsistent(cfg, start, calls);
    SuccessShows(cfg, start, calls);
    var rest := At(Evict(base, l.command), l.asked);
    StampGrows(base.now, l.asked);
    StampGrows(l.asked, l.start);
    StampGrows(l.start, sys.shared.now);
    if base.endTime != 0 && cfg.delay != 0 {
      RestIsSpaced(cfg, rest, l.late);
    }
  }

  /** The wait is the least one here too: the thread in the device was not held up when nothing had succeeded or
      the delay had passed, and otherwise until the clock showed the end of the last success plus the delay. */
  lemma DeviceWaitsLeast(cfg: Config, start: nat, steps: seq<Step>, states: seq<System>, i: nat, t: Tid)
    requires Behaviour(cfg, start, steps, states) && i < |states| && LocalOf(states[i], t).InDevice?
    requires cfg.delay * 1000 < U32 && start >= ONE_MS && Stamp(states[i].shared.now) < U64
    ensures var l, log := LocalOf(states[i], t), Entries(states[i].completed);
            var woken, due := l.start - l.late, LastSuccess(log) + cfg.delay;
            if Succeeded(log) && Stamp(l.asked) < due then woken >= l.asked && Stamp(woken) == due else woken == l.asked
  {
    hide Behaviour, Tickets, Whole, RunOf, LastSuccess, Stamp, IsHit, Succeeded;
    AlwaysInvariant(cfg, start, steps, states, i);
    var sys, l, calls := states[i], LocalOf(states[i], t), Calls(states[i].completed);
    var base := RunOf(cfg, start, calls).state;
    assert l.Inside();
    RunConsistent(cfg, start, calls);
    SuccessShows(cfg, start, calls);
    NoSuccessShows(Entries(sys.completed));
    StampGrows(base.now, l.asked);
    StampGrows(l.asked, l.start);
    StampGrows(l.start, sys.shared.now);
    LeastRest(cfg, At(Evict(base, l.command), l.asked));
  }

  lemma LeastRest(cfg: Config, st: State)
    requires cfg.delay * 1000 < U32 && st.endTime <= Stamp(st.now) < U64
    ensures var woken, due := Sleep(cfg, st).now, st.endTime + cfg.delay;
            if st.endTime != 0 && Stamp(st.now) < due then woken >= st.now && Stamp(woken) == due else woken == st.now
  {
    NoWrap(Stamp(st.now), st.endTime);
    var missing := st.endTime + cfg.delay - Stamp(st.now);
    if st.endTime != 0 && missing > 0 {
      assert missing * 1000 <= cfg.delay * 1000;
      assert Stamp(st.now + missing * 1000) == Stamp(st.now) + missing;
    }
  }

  lemma RestIsSpaced(cfg: Config, st: State, late: nat)
    requires cfg.delay * 1000 < U32 && cfg.delay != 0 && st.endTime != 0
    requires st.endTime <= Stamp(st.now) < U64
    ensures Stamp(Tick(Sleep(cfg, st), late).now) >= st.endTime + cfg.delay
  {
    NoWrap(Stamp(st.now), st.endTime);
    var diff := Stamp(st.now) - st.endTime;
    if diff < cfg.delay {
      assert (cfg.delay - diff) * 1000 <= cfg.delay * 1000;
      SleepReaches(st.now, st.endTime, cfg.delay, late);
    }
  }
}
