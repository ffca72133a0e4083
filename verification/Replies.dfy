/** Replies to the clients of the daemon (src/server/connection.cc:108-136, 249-260): how they are put
    on the socket, and why a client can tell them apart again. */
module Replies {
  import opened Text

  const END := "\r\n\r\n"

  datatype Reply = Reply(ok: bool, body: string)

  /** `operator<<` */
  function Encoded(r: Reply): string {
    (if r.ok then "ok" else "err") + (if r.body != "" then CRLF + r.body else "") + END
  }

  function Stream(replies: seq<Reply>): string {
    if replies == [] then "" else Encoded(replies[0]) + Stream(replies[1..])
  }

  // ---- Sending ----

  /** What `send` answers: at most `count` characters taken, or -1. */
  datatype Answer = Taken(count: nat) | Error

  datatype Sending = Sent | Failed | Stalled

  datatype Socket = Socket(answers: seq<Answer>, sent: string)

  /** Sending all of `data`, in as many calls as it takes; `Stalled` when the answers run out. */
  function SendAll(socket: Socket, data: string): (Sending, Socket)
    decreases |socket.answers|
  {
    if data == "" then (Sent, socket)
    else if socket.answers == [] then (Stalled, socket)
    else
      var after := socket.(answers := socket.answers[1..]);
      match socket.answers[0]
      case Error => (Failed, after)
      case Taken(count) =>
        var n := if count < |data| then count else |data|;
        SendAll(after.(sent := socket.sent + data[..n]), data[n..])
  }

  class Connection {
    var socket: Socket

    /** One `send` call: the number of characters taken, -1, or no answer at all. */
    method Send(data: string) returns (bytesSent: int, answered: bool)
      modifies this
      ensures answered <==> old(socket).answers != []
      ensures !answered ==> socket == old(socket)
      ensures answered ==>
                socket.answers == old(socket).answers[1..]
                && bytesSent == (match old(socket).answers[0]
                                 case Error => -1
                                 case Taken(count) => if count < |data| then count else |data|)
                && socket.sent == (if bytesSent == -1 then old(socket).sent else old(socket).sent + data[..bytesSent])
    {
      if socket.answers == [] {
        return 0, false;
      }
      var answer := socket.answers[0];
      socket := socket.(answers := socket.answers[1..]);
      if answer.Error? {
        return -1, true;
      }
      bytesSent := if answer.count < |data| then answer.count else |data|;
      socket := socket.(sent := socket.sent + data[..bytesSent]);
      return bytesSent, true;
    }

    method WriteLoop(buf: string) returns (outcome: Sending)
      modifies this
      ensures (outcome, socket) == SendAll(old(socket), buf)
    {
      var at, left := 0, |buf|;
      while left > 0
        invariant 0 <= at && 0 <= left && at + left == |buf|
        invariant SendAll(socket, buf[at..]) == SendAll(old(socket), buf)
        decreases |socket.answers|
      {
        var bytesSent, answered := Send(buf[at..]);
        if !answered {
          return Stalled;
        }
        if bytesSent == -1 {
          return Failed;
        }
        assert buf[at..][bytesSent..] == buf[at + bytesSent..];
        left := left - bytesSent;
        at := at + bytesSent;
      }
      return Sent;
    }
  }

  /** Whatever the sizes of the partial sends: what has left is a prefix of the data, in order and without
      repetition, and all of it on success. */
  lemma {:induction false} SendsAPrefix(socket: Socket, data: string) returns (k: nat)
    ensures var (outcome, after) := SendAll(socket, data);
            k <= |data| && after.sent == socket.sent + data[..k] && (outcome.Sent? ==> k == |data|)
    decreases |socket.answers|
  {
    k := 0;
    assert socket.sent + data[..0] == socket.sent;
    if data != "" && socket.answers != [] && socket.answers[0].Taken? {
      var count := socket.answers[0].count;
      var n := if count < |data| then count else |data|;
      var after := socket.(answers := socket.answers[1..], sent := socket.sent + data[..n]);
      var m := SendsAPrefix(after, data[n..]);
      assert socket.sent + data[..n] + data[n..][..m] == socket.sent + data[..n + m];
      k := n + m;
    }
  }

  predicate AllTaken(answers: seq<Answer>, n: nat) { n <= |answers| && forall i :: 0 <= i < n ==> answers[i].Taken? }

  lemma TakenShift(answers: seq<Answer>, n: nat)
    requires 0 < n <= |answers|
    ensures AllTaken(answers, n) <==> answers[0].Taken? && AllTaken(answers[1..], n - 1)
  {
    if answers[0].Taken? && AllTaken(answers[1..], n - 1) {
      forall i | 0 <= i < n
        ensures answers[i].Taken?
      {
        assert i > 0 ==> answers[i] == answers[1..][i - 1];
      }
    }
  }

  /** What `n` sends in a row, none of them refused, leave of the data. */
  function LeftAfter(answers: seq<Answer>, data: string, n: nat): (left: string)
    requires AllTaken(answers, n)
    ensures |left| <= |data|
  {
    if n == 0 then data
    else
      var left := LeftAfter(answers, data, n - 1);
      if answers[n - 1].count < |left| then left[answers[n - 1].count..] else ""
  }

  /** After `n` good sends there is still something to be sent. */
  predicate SendsOn(answers: seq<Answer>, data: string, n: nat) {
    AllTaken(answers, n) && LeftAfter(answers, data, n) != ""
  }

  /** Sending ended after `n` calls. */
  predicate HasSent(socket: Socket, data: string, n: nat, outcome: Sending, after: Socket) {
    && n <= |socket.answers| && after.answers == socket.answers[n..]
    && (forall j :: 0 <= j < n ==> SendsOn(socket.answers, data, j))
    && (outcome == Sent <==> AllTaken(socket.answers, n) && LeftAfter(socket.answers, data, n) == "")
    && (outcome == Failed <==> n > 0 && socket.answers[n - 1].Error?)
    && (outcome == Stalled <==> n == |socket.answers| && SendsOn(socket.answers, data, n))
  }

  lemma {:induction false} LeftAfterFirst(answers: seq<Answer>, data: string, n: nat)
    requires 0 < n && AllTaken(answers, n)
    ensures AllTaken(answers[1..], n - 1)
    ensures LeftAfter(answers, data, n) == LeftAfter(answers[1..], LeftAfter(answers, data, 1), n - 1)
  {
    TakenShift(answers, n);
    assert LeftAfter(answers, data, 0) == data;
    if n > 1 {
      LeftAfterFirst(answers, data, n - 1);
    }
  }

  /** Sending goes on exactly while calls go well and something is left; every ending has its cause. */
  lemma {:induction false} SendingEnds(socket: Socket, data: string) returns (n: nat)
    ensures var (outcome, after) := SendAll(socket, data);
            HasSent(socket, data, n, outcome, after)
    decreases |socket.answers|
  {
    hide HasSent;
    n := 0;
    if data != "" && socket.answers != [] {
      n := 1;
      if socket.answers[0].Taken? {
        var count := socket.answers[0].count;
        var k := if count < |data| then count else |data|;
        var after := socket.(answers := socket.answers[1..], sent := socket.sent + data[..k]);
        var m := SendingEnds(after, data[k..]);
        n := m + 1;
        SendingGoesOn(socket, data, m);
      } else {
        NoSendingOn(socket, data);
      }
    } else {
      NoSendingOn(socket, data);
    }
  }

  lemma NoSendingOn(socket: Socket, data: string)
    requires data == "" || socket.answers == [] || socket.answers[0].Error?
    ensures var (outcome, after) := SendAll(socket, data);
            HasSent(socket, data, if data == "" || socket.answers == [] then 0 else 1, outcome, after)
  {}

  lemma SendingGoesOn(socket: Socket, data: string, m: nat)
    requires data != "" && socket.answers != [] && socket.answers[0].Taken?
    requires var count := socket.answers[0].count;
             var k := if count < |data| then count else |data|;
             var next := socket.(answers := socket.answers[1..], sent := socket.sent + data[..k]);
             var (outcome, after) := SendAll(next, data[k..]);
             HasSent(next, data[k..], m, outcome, after)
    ensures var (outcome, after) := SendAll(socket, data);
            HasSent(socket, data, m + 1, outcome, after)
  {
    var answers := socket.answers;
    var k := if answers[0].count < |data| then answers[0].count else |data|;
    assert LeftAfter(answers, data, 0) == data && LeftAfter(answers, data, 1) == data[k..];
    forall j | 0 <= j <= m + 1
      ensures SendsOn(answers, data, j) <==> j == 0 || SendsOn(answers[1..], data[k..], j - 1)
    {
      SendsOnShift(answers, data, k, j);
    }
    TakenShift(answers, m + 1);
    if AllTaken(answers, m + 1) {
      LeftAfterFirst(answers, data, m + 1);
    }
  }

  lemma SendsOnShift(answers: seq<Answer>, data: string, k: nat, j: nat)
    requires data != "" && answers != [] && answers[0].Taken? && k <= |data| && j <= |answers|
    requires LeftAfter(answers, data, 0) == data && LeftAfter(answers, data, 1) == data[k..]
    ensures SendsOn(answers, data, j) <==> j == 0 || SendsOn(answers[1..], data[k..], j - 1)
  {
    hide LeftAfter;
    if j > 0 {
      TakenShift(answers, j);
      if AllTaken(answers, j) {
        LeftAfterFirst(answers, data, j);
      }
    }
  }

  /** A reply, character by character. */
  lemma ReplyExactly(body: string)
    ensures Encoded(Reply(true, "")) == "ok\r\n\r\n" && Encoded(Reply(false, "")) == "err\r\n\r\n"
    ensures body != "" ==> Encoded(Reply(true, body)) == "ok\r\n" + body + "\r\n\r\n"
    ensures body != "" ==> Encoded(Reply(false, body)) == "err\r\n" + body + "\r\n\r\n"
  {
    assert "ok" + (CRLF + body) + END == "ok\r\n" + body + END;
    assert "err" + (CRLF + body) + END == "err\r\n" + body + END;
  }

  // ---- Reading the stream ----

  predicate EndsAt(s: string, i: int) { 0 <= i && i + 4 <= |s| && s[i..i + 4] == END }

  /** The first empty line from `from` on, or the length when there is none. */
  function FindEnd(s: string, from: nat): (k: nat)
    requires from <= |s|
    ensures from <= k <= |s| && (k < |s| ==> EndsAt(s, k)) && forall i :: from <= i < k ==> !EndsAt(s, i)
    decreases |s| - from
  {
    if from == |s| || EndsAt(s, from) then from else FindEnd(s, from + 1)
  }

  predicate StartsWith(s: string, prefix: string) { |prefix| <= |s| && s[..|prefix|] == prefix }

  /** A status, and behind a line break the body. */
  function ParseReply(s: string): Option<Reply> {
    if s == "ok" then Some(Reply(true, ""))
    else if s == "err" then Some(Reply(false, ""))
    else if StartsWith(s, "ok\r\n") then Some(Reply(true, s[4..]))
    else if StartsWith(s, "err\r\n") then Some(Reply(false, s[5..]))
    else None
  }

  /** The first complete reply of a stream, and what follows it. */
  function NextReply(s: string): Option<(Reply, string)> {
    var k := FindEnd(s, 0);
    if k == |s| then None
    else
      match ParseReply(s[..k])
      case None => None
      case Some(r) => Some((r, s[k + 4..]))
  }

  /** The complete replies of a stream. */
  function Received(s: string): seq<Reply>
    decreases |s|
  {
    match NextReply(s)
    case None => []
    case Some((r, rest)) => [r] + Received(rest)
  }

  /** A body that can be told from the end of its reply. */
  predicate Clean(body: string) {
    && !StartsWith(body, CRLF)
    && !(|body| >= 2 && body[|body| - 2..] == CRLF)
    && forall i :: 0 <= i < |body| ==> !EndsAt(body, i)
  }

  lemma EndChars(s: string, i: nat)
    ensures EndsAt(s, i) <==> i + 4 <= |s| && s[i] == '\r' && s[i + 1] == '\n' && s[i + 2] == '\r' && s[i + 3] == '\n'
  {
    if i + 4 <= |s| {
      var t := s[i..i + 4];
      assert t[0] == s[i] && t[1] == s[i + 1] && t[2] == s[i + 2] && t[3] == s[i + 3];
      assert END[0] == '\r' && END[1] == '\n' && END[2] == '\r' && END[3] == '\n';
    }
  }

  /** The reply up to its end mark. */
  function Head(r: Reply): string { (if r.ok then "ok" else "err") + if r.body != "" then CRLF + r.body else "" }

  function BodyAt(r: Reply): nat { if r.ok then 4 else 5 }

  lemma HeadParses(r: Reply)
    ensures ParseReply(Head(r)) == Some(r)
  {
    if r.body != "" {
      assert Head(r)[BodyAt(r)..] == r.body;
      assert r.ok ==> Head(r)[..4] == "ok\r\n";
      assert !r.ok ==> Head(r)[..5] == "err\r\n" && Head(r)[0] == 'e';
    }
  }

  /** The characters around the body. */
  lemma HeadChars(r: Reply, rest: string)
    ensures var s := Head(r) + END + rest; var at := BodyAt(r);
            && s == Encoded(r) + rest
            && (forall i :: 0 <= i < at - 2 ==> s[i] != '\r')
            && s[at - 2] == '\r' && s[at - 1] == '\n'
            && (r.body != "" ==> |Head(r)| == at + |r.body| && forall j :: 0 <= j < |r.body| ==> s[at + j] == r.body[j])
            && (r.body == "" ==> |Head(r)| == at - 2)
            && |s| == |Head(r)| + 4 + |rest|
            && s[|Head(r)|] == '\r' && s[|Head(r)| + 1] == '\n' && s[|Head(r)| + 2] == '\r' && s[|Head(r)| + 3] == '\n'
            && s[..|Head(r)|] == Head(r) && s[|Head(r)| + 4..] == rest
  {
    var s := Head(r) + END + rest;
    assert s == Encoded(r) + rest;
    if r.body != "" {
      assert Head(r) == (if r.ok then "ok\r\n" else "err\r\n") + r.body;
    }
  }

  /** An end mark inside a reply shows in its body. */
  lemma NoEarlierEnd(r: Reply, rest: string, i: nat)
    requires i < |Head(r)| && EndsAt(Head(r) + END + rest, i)
    ensures !Clean(r.body)
  {
    hide Head, Clean, EndsAt, StartsWith;
    var s, at, n := Head(r) + END + rest, BodyAt(r), |r.body|;
    HeadChars(r, rest);
    EndChars(s, i);
    if i >= at {
      EndChars(r.body, i - at);
      Unclean(r.body, i - at);
    } else {
      Unclean(r.body, 0);
    }
  }

  lemma Unclean(body: string, i: nat)
    ensures EndsAt(body, i) || StartsWith(body, CRLF) || (i + 2 == |body| && body[i] == '\r' && body[i + 1] == '\n') ==>
              !Clean(body)
    ensures |body| >= 2 && body[0] == '\r' && body[1] == '\n' ==> !Clean(body)
  {
    if i + 2 == |body| && body[i] == '\r' && body[i + 1] == '\n' {
      assert body[|body| - 2..] == CRLF;
    }
    if |body| >= 2 && body[0] == '\r' && body[1] == '\n' {
      assert body[..2] == CRLF;
    }
  }

  /** An unclean body shows an end mark too early. */
  lemma EarlierEnd(r: Reply, rest: string) returns (i: nat)
    requires !Clean(r.body)
    ensures i < |Head(r)| && EndsAt(Head(r) + END + rest, i)
  {
    var s, at, n := Head(r) + END + rest, BodyAt(r), |r.body|;
    HeadChars(r, rest);
    if StartsWith(r.body, CRLF) {
      i := at - 2;
      assert r.body[..2][0] == '\r' && r.body[..2][1] == '\n';
    } else if n >= 2 && r.body[n - 2..] == CRLF {
      i := at + n - 2;
      assert r.body[n - 2..][0] == '\r' && r.body[n - 2..][1] == '\n';
    } else {
      var j :| 0 <= j < n && EndsAt(r.body, j);
      EndChars(r.body, j);
      i := at + j;
    }
    EndChars(s, i);
  }

  /** A reply is read back from the front of a stream exactly when its body neither starts nor ends with
      a line break nor holds an empty line. A lone carriage return at its end does no harm. */
  lemma ReadsBackExactly(r: Reply, rest: string)
    ensures NextReply(Encoded(r) + rest) == Some((r, rest)) <==> Clean(r.body)
  {
    hide Clean, Head, EndsAt, ParseReply;
    var s := Head(r) + END + rest;
    HeadChars(r, rest);
    HeadParses(r);
    var k := FindEnd(s, 0);
    EndChars(s, |Head(r)|);
    assert k <= |Head(r)|;
    if Clean(r.body) {
      if k < |Head(r)| {
        NoEarlierEnd(r, rest, k);
      }
    } else {
      var i := EarlierEnd(r, rest);
      assert |s[k + 4..]| > |rest|;
    }
  }

  /** Sending one reply after the other; the connection ends with the first failure. */
  function SendReplies(socket: Socket, replies: seq<Reply>): (Sending, Socket)
    decreases |replies|
  {
    if replies == [] then (Sent, socket)
    else
      var (outcome, after) := SendAll(socket, Encoded(replies[0]));
      if outcome.Sent? then SendReplies(after, replies[1..]) else (outcome, after)
  }

  lemma {:induction false} RepliesLeaveInOrder(socket: Socket, replies: seq<Reply>) returns (k: nat)
    ensures var (outcome, after) := SendReplies(socket, replies);
            && k <= |Stream(replies)| && after.sent == socket.sent + Stream(replies)[..k]
            && (outcome.Sent? ==> k == |Stream(replies)|)
    decreases |replies|
  {
    hide Encoded, SendAll;
    k := 0;
    assert socket.sent + Stream(replies)[..0] == socket.sent;
    if replies != [] {
      var (outcome, after) := SendAll(socket, Encoded(replies[0]));
      k := SendsAPrefix(socket, Encoded(replies[0]));
      assert Stream(replies)[..k] == Encoded(replies[0])[..k];
      if outcome.Sent? {
        var m := RepliesLeaveInOrder(after, replies[1..]);
        assert Stream(replies)[..k + m] == Encoded(replies[0])[..k] + Stream(replies[1..])[..m];
        assert socket.sent + Encoded(replies[0])[..k] + Stream(replies[1..])[..m]
            == socket.sent + (Encoded(replies[0])[..k] + Stream(replies[1..])[..m]);
        k := k + m;
      }
    }
  }

  predicate AllClean(replies: seq<Reply>) { forall i :: 0 <= i < |replies| ==> Clean(replies[i].body) }

  lemma CutEnds(t: string, n: nat, i: nat)
    requires n <= |t|
    ensures EndsAt(t[..n], i) <==> EndsAt(t, i) && i + 4 <= n
  {
    if i + 4 <= n {
      assert t[..n][i..i + 4] == t[i..i + 4];
    }
  }

  /** Cutting a stream inside its first reply leaves nothing to read; cutting it later leaves that reply. */
  lemma FirstOfPrefix(r: Reply, rest: string, n: nat)
    requires Clean(r.body) && n <= |Encoded(r) + rest|
    ensures var s := (Encoded(r) + rest)[..n];
            NextReply(s) == if n < |Encoded(r)| then None else Some((r, s[|Encoded(r)|..]))
  {
    hide Clean, Head, ParseReply, EndsAt;
    var t := Head(r) + END + rest;
    HeadChars(r, rest);
    HeadParses(r);
    var s := t[..n];
    var k := FindEnd(s, 0);
    assert |Encoded(r)| == |Head(r)| + 4;
    EndChars(t, |Head(r)|);
    if k < |s| {
      CutEnds(t, n, k);
      if k < |Head(r)| {
        NoEarlierEnd(r, rest, k);
      }
    }
    if n >= |Encoded(r)| {
      CutEnds(t, n, |Head(r)|);
      assert s[..|Head(r)|] == Head(r);
    }
  }

  /** How many of the replies lie completely in the first `n` characters of their stream. */
  function Complete(replies: seq<Reply>, n: nat): (m: nat)
    ensures m <= |replies|
    decreases |replies|
  {
    if replies == [] || n < |Encoded(replies[0])| then 0
    else 1 + Complete(replies[1..], n - |Encoded(replies[0])|)
  }

  /** It is the largest number that fits. */
  lemma {:induction false} CompleteIsLargest(replies: seq<Reply>, n: nat)
    ensures var m := Complete(replies, n);
            && |Stream(replies[..m])| <= n
            && (m < |replies| ==> n < |Stream(replies[..m + 1])|)
    decreases |replies|
  {
    hide Encoded;
    if replies != [] {
      var e, m := Encoded(replies[0]), Complete(replies, n);
      if n >= |e| {
        CompleteIsLargest(replies[1..], n - |e|);
        StreamTake(replies, m);
        if m < |replies| {
          StreamTake(replies, m + 1);
        }
      } else {
        StreamTake(replies, 1);
        assert replies[..0] == [] && replies[1..][..0] == [];
      }
    }
  }

  lemma StreamTake(replies: seq<Reply>, m: nat)
    requires 0 < m <= |replies|
    ensures Stream(replies[..m]) == Encoded(replies[0]) + Stream(replies[1..][..m - 1])
  {
    assert replies[..m][1..] == replies[1..][..m - 1];
  }

  /** Every cut of a stream of clean replies reads as exactly those that lie in it completely. */
  lemma {:induction false} CutStreamReads(replies: seq<Reply>, n: nat)
    requires AllClean(replies) && n <= |Stream(replies)|
    ensures Received(Stream(replies)[..n]) == replies[..Complete(replies, n)]
    ensures n == |Stream(replies)| ==> Complete(replies, n) == |replies|
    decreases |replies|
  {
    hide NextReply, Encoded, Clean;
    var s := Stream(replies)[..n];
    if replies == [] {
      NothingReceived();
      assert s == "";
    } else {
      var e, rest := Encoded(replies[0]), Stream(replies[1..]);
      FirstOfPrefix(replies[0], rest, n);
      if n >= |e| {
        assert s[|e|..] == rest[..n - |e|];
        CutStreamReads(replies[1..], n - |e|);
        var m := Complete(replies, n);
        assert replies[..m] == [replies[0]] + replies[1..][..m - 1];
      }
    }
  }

  /** What a client reads, whatever partial sends carried it and wherever they stopped: the replies that
      have left completely, each as it was given and no other; and all of them when every send succeeded. */
  lemma ClientReads(socket: Socket, replies: seq<Reply>)
    requires AllClean(replies) && socket.sent == ""
    ensures var (outcome, after) := SendReplies(socket, replies);
            var m := Complete(replies, |after.sent|);
            && after.sent <= Stream(replies)
            && |Stream(replies[..m])| <= |after.sent| && (m < |replies| ==> |after.sent| < |Stream(replies[..m + 1])|)
            && Received(after.sent) == replies[..m]
            && (outcome.Sent? ==> Received(after.sent) == replies)
  {
    hide SendReplies, Received, AllClean, Complete;
    var k := RepliesLeaveInOrder(socket, replies);
    CutStreamReads(replies, k);
    CompleteIsLargest(replies, k);
    assert "" + Stream(replies)[..k] == Stream(replies)[..k];
    assert replies[..|replies|] == replies;
  }

  lemma NothingReceived()
    ensures NextReply("") == None
  {}
}
