/** Transactions one after the other on one line (src/voltronic/device.cc:53-67). After a timeout the late
    answer stays unread, and the next transaction may take it for its own: `run` notes this itself at
    lines 59-62. Here is when that happens, and when it does not. */
module Exchanges {
  import opened Crc
  import opened Line
  import opened Device
  import opened Framing

  /** One transaction: what is asked, and what the inverter answers if the request reaches it. */
  datatype Round = Round(request: seq<Byte>, answer: seq<Byte>)

  predicate Asked(line: Line, flags: bv8, timeout: nat, round: Round) {
    WriteAll(line, Frame(flags, round.request), timeout, line.now).0.Done?
  }

  /** The answer follows whatever is still unread. How late it can be read is up to the schedule. */
  function Offered(line: Line, flags: bv8, timeout: nat, round: Round): Line {
    line.(incoming := line.incoming +
                      if Asked(line, flags, timeout, round) then Frame(FLAG_WRITE_CRC, round.answer) else [])
  }

  function Exchange(line: Line, flags: bv8, timeout: nat, capacity: nat, round: Round): Reading {
    Transact(Offered(line, flags, timeout, round), flags, timeout, round.request, capacity)
  }

  /** The line after some rounds. */
  function After(line: Line, flags: bv8, timeout: nat, capacity: nat, rounds: seq<Round>): Line
    decreases |rounds|
  {
    if rounds == [] then line
    else
      var n := |rounds| - 1;
      Exchange(After(line, flags, timeout, capacity, rounds[..n]), flags, timeout, capacity, rounds[n]).line
  }

  /** The k-th round of a session. */
  function Turn(line: Line, flags: bv8, timeout: nat, capacity: nat, rounds: seq<Round>, k: nat): Reading
    requires k < |rounds|
  {
    Exchange(After(line, flags, timeout, capacity, rounds[..k]), flags, timeout, capacity, rounds[k])
  }

  /** What is on the line and unread when the k-th round begins. */
  function Unread(line: Line, flags: bv8, timeout: nat, capacity: nat, rounds: seq<Round>, k: nat): seq<Byte>
    requires k < |rounds|
  {
    After(line, flags, timeout, capacity, rounds[..k]).incoming
  }

  /** Writing neither reads nor depends on what is to be read. */
  lemma {:induction false} WritingIgnoresIncoming(line: Line, data: seq<Byte>, timeout: nat, started: nat,
                                                  incoming: seq<Byte>)
    ensures var (outcome, after) := WriteAll(line, data, timeout, started);
            && WriteAll(line.(incoming := incoming), data, timeout, started) == (outcome, after.(incoming := incoming))
            && after.incoming == line.incoming
    decreases |line.writeAnswers|
  {
    var (outcome, after) := WriteOnce(line, data);
    if outcome.Done? && |data| - outcome.count > 0 && InTime(timeout, started, after.now) {
      WritingIgnoresIncoming(after, data[outcome.count..], timeout, started, incoming);
    }
  }

  /** A round that ends well has sent its request, and has received in front of what was unread and then
      its answer. */
  lemma WhatARoundReceives(line: Line, flags: bv8, timeout: nat, capacity: nat, round: Round)
    requires Verifying(flags)
    ensures var r := Exchange(line, flags, timeout, capacity, round);
            var stream := line.incoming + Frame(FLAG_WRITE_CRC, round.answer);
            r.outcome.Done? ==>
              && r.outcome.count + 3 <= |r.stored| && stream == r.stored + r.line.incoming
              && NoCR(r.stored[..r.outcome.count]) && Frame(FLAG_WRITE_CRC, r.stored[..r.outcome.count]) <= stream
  {
    hide WriteAll, Frame, NoCR, ReadFrame, Unframe;
    var offered := Offered(line, flags, timeout, round);
    WritingIgnoresIncoming(line, Frame(flags, round.request), timeout, line.now, offered.incoming);
    var (outcome, after) := WriteAll(offered, Frame(flags, round.request), timeout, line.now);
    if outcome.Done? {
      OnlyFramesAreReceived(after, flags, capacity, timeout, line.now);
      ReadsUpToCR(after, capacity, timeout, line.now);
    }
  }

  /** Exactly when the answer received is the answer sent: nothing was unread before, or what was unread
      begins with the very same frame. */
  lemma OwnAnswerExactly(line: Line, flags: bv8, timeout: nat, capacity: nat, round: Round)
    requires Verifying(flags) && NoCR(round.answer)
    requires Exchange(line, flags, timeout, capacity, round).outcome.Done?
    ensures Received(Exchange(line, flags, timeout, capacity, round), round.answer) <==>
            line.incoming == [] || Frame(FLAG_WRITE_CRC, round.answer) <= line.incoming
  {
    hide Exchange, Frame, NoCR;
    WhatARoundReceives(line, flags, timeout, capacity, round);
    var r, own := Exchange(line, flags, timeout, capacity, round), Frame(FLAG_WRITE_CRC, round.answer);
    var stream, message := line.incoming + own, r.stored[..r.outcome.count];
    if line.incoming == [] || own <= line.incoming {
      assert own <= stream;
      OneFrameInFront(message, round.answer, stream);
    }
    if Received(r, round.answer) && line.incoming != [] {
      NoOverlap(round.answer, line.incoming);
    }
  }

  /** A frame does not overlap with a copy of itself. */
  lemma NoOverlap(message: seq<Byte>, before: seq<Byte>)
    requires NoCR(message) && before != []
    requires Frame(FLAG_WRITE_CRC, message) <= before + Frame(FLAG_WRITE_CRC, message)
    ensures Frame(FLAG_WRITE_CRC, message) <= before
  {
    hide Frame, FirstCR;
    var frame := Frame(FLAG_WRITE_CRC, message);
    var rest := (before + frame)[|frame|..];
    assert before + frame == frame + rest;
    FrameEndsAtFirstCR(FLAG_WRITE_CRC, message, rest);
    FrameEndsAtFirstCR(FLAG_WRITE_CRC, message, []);
    assert frame + [] == frame;
    FirstCRConcat(before, frame);
    assert frame == (before + frame)[..|frame|];
  }

  /** Over a whole session: in every round that ends well, the answer received is the one sent in this round
      if and only if nothing was unread, or the unread begins with the same frame. */
  lemma SessionExactly(line: Line, flags: bv8, timeout: nat, capacity: nat, rounds: seq<Round>, k: nat)
    requires Verifying(flags) && k < |rounds| && NoCR(rounds[k].answer)
    requires Turn(line, flags, timeout, capacity, rounds, k).outcome.Done?
    ensures Received(Turn(line, flags, timeout, capacity, rounds, k), rounds[k].answer) <==>
            var unread := Unread(line, flags, timeout, capacity, rounds, k);
            unread == [] || Frame(FLAG_WRITE_CRC, rounds[k].answer) <= unread
  {
    hide Exchange, Frame, NoCR, After;
    OwnAnswerExactly(After(line, flags, timeout, capacity, rounds[..k]), flags, timeout, capacity, rounds[k]);
  }

  /** A round that ends well on a line without leftovers leaves none. */
  lemma LeavesNothing(line: Line, flags: bv8, timeout: nat, capacity: nat, round: Round)
    requires Verifying(flags) && NoCR(round.answer) && line.incoming == []
    requires Exchange(line, flags, timeout, capacity, round).outcome.Done?
    ensures Exchange(line, flags, timeout, capacity, round).line.incoming == []
  {
    hide Exchange, Frame, NoCR;
    WhatARoundReceives(line, flags, timeout, capacity, round);
    OwnAnswerExactly(line, flags, timeout, capacity, round);
    FrameLength(round.answer);
    var r, own := Exchange(line, flags, timeout, capacity, round), Frame(FLAG_WRITE_CRC, round.answer);
    assert [] + own == own == r.stored + r.line.incoming;
  }

  /** As long as every round ends well, the session is in step: nothing is ever left unread, and each round
      receives its own answer. */
  lemma {:induction false} InStep(line: Line, flags: bv8, timeout: nat, capacity: nat, rounds: seq<Round>, k: nat)
    requires Verifying(flags) && line.incoming == [] && k < |rounds|
    requires forall i :: 0 <= i <= k ==>
               NoCR(rounds[i].answer) && Turn(line, flags, timeout, capacity, rounds, i).outcome.Done?
    ensures Unread(line, flags, timeout, capacity, rounds, k) == []
    ensures Received(Turn(line, flags, timeout, capacity, rounds, k), rounds[k].answer)
    decreases k
  {
    hide Exchange, Frame, NoCR;
    if k > 0 {
      InStep(line, flags, timeout, capacity, rounds, k - 1);
      assert rounds[..k][..k - 1] == rounds[..k - 1];
      LeavesNothing(After(line, flags, timeout, capacity, rounds[..k - 1]), flags, timeout, capacity, rounds[k - 1]);
    }
    SessionExactly(line, flags, timeout, capacity, rounds, k);
  }

  /** Sending took too long: the round fails before anything is read, and the answer stays on the line. */
  lemma LateSendingLeavesTheAnswer(line: Line, flags: bv8, timeout: nat, capacity: nat, round: Round)
    requires Asked(line, flags, timeout, round)
    requires !InTime(timeout, line.now, WriteAll(line, Frame(flags, round.request), timeout, line.now).1.now)
    ensures var r := Exchange(line, flags, timeout, capacity, round);
            && r.outcome == Failed(TimeoutError)
            && r.line.incoming == line.incoming + Frame(FLAG_WRITE_CRC, round.answer)
  {
    hide WriteAll, Frame;
    var offered := Offered(line, flags, timeout, round);
    WritingIgnoresIncoming(line, Frame(flags, round.request), timeout, line.now, offered.incoming);
  }

  lemma AfterOne(line: Line, flags: bv8, timeout: nat, capacity: nat, round: Round)
    ensures After(line, flags, timeout, capacity, [round]) == Exchange(line, flags, timeout, capacity, round).line
  {
    hide Exchange;
    assert [round][..0] == [];
    assert After(line, flags, timeout, capacity, []) == line;
  }

  /** So after one late round the next one that ends well receives the late answer: the right one only if
      both answers are the same. */
  lemma LateAnswerIsTaken(line: Line, flags: bv8, timeout: nat, capacity: nat, late: Round, next: Round)
    requires Verifying(flags) && NoCR(late.answer) && NoCR(next.answer) && line.incoming == []
    requires Asked(line, flags, timeout, late)
    requires !InTime(timeout, line.now, WriteAll(line, Frame(flags, late.request), timeout, line.now).1.now)
    requires Turn(line, flags, timeout, capacity, [late, next], 1).outcome.Done?
    ensures Received(Turn(line, flags, timeout, capacity, [late, next], 1), late.answer)
    ensures Received(Turn(line, flags, timeout, capacity, [late, next], 1), next.answer) <==> late.answer == next.answer
  {
    hide Exchange, Frame, NoCR, Asked, InTime, WriteAll;
    LateSendingLeavesTheAnswer(line, flags, timeout, capacity, late);
    var rounds := [late, next];
    assert rounds[..1] == [late];
    AfterOne(line, flags, timeout, capacity, late);
    var before := After(line, flags, timeout, capacity, rounds[..1]);
    assert [] + Frame(FLAG_WRITE_CRC, late.answer) == Frame(FLAG_WRITE_CRC, late.answer);
    WhatARoundReceives(before, flags, timeout, capacity, next);
    var r := Turn(line, flags, timeout, capacity, rounds, 1);
    var stream := before.incoming + Frame(FLAG_WRITE_CRC, next.answer);
    assert Frame(FLAG_WRITE_CRC, late.answer) <= stream;
    OneFrameInFront(r.stored[..r.outcome.count], late.answer, stream);
  }
}
