/** Requests from the clients of the daemon: taking a line apart, and the options of a connection
    (src/server/connection.cc:149-247, src/common.cc:6-17). */
module Requests {
  import opened Integers
  import opened Text
  import opened Splitting

  // ---- Words, as strtok_r finds them ----

  function SkipBlanks(s: string, at: nat): (k: nat)
    requires at <= |s|
    ensures at <= k <= |s| && (k < |s| ==> s[k] != ' ') && forall i :: at <= i < k ==> s[i] == ' '
    decreases |s| - at
  {
    if at == |s| || s[at] != ' ' then at else SkipBlanks(s, at + 1)
  }

  /** The runs of characters other than blanks, from `at` on. */
  function Words(s: string, at: nat): seq<string>
    requires at <= |s|
    decreases |s| - at
  {
    var start := SkipBlanks(s, at);
    if start == |s| then []
    else
      var end := Find(s, ' ', start);
      [s[start..end]] + Words(s, end)
  }

  /** Where the first line break starts, or the length. */
  function LineEnd(s: string, at: nat): (k: nat)
    requires at <= |s|
    ensures at <= k <= |s| && (k < |s| ==> k + 1 < |s| && s[k] == '\r' && s[k + 1] == '\n')
    ensures forall i :: at <= i < k ==> !(i + 1 < |s| && s[i] == '\r' && s[i + 1] == '\n')
    decreases |s| - at
  {
    if at == |s| || (at + 1 < |s| && s[at] == '\r' && s[at + 1] == '\n') then at else LineEnd(s, at + 1)
  }

  /** A token is cut at its line break. */
  function Cut(token: string): string { token[..LineEnd(token, 0)] }

  /** The arguments: what is left of the words after the first, unless nothing is left. */
  function Arguments(words: seq<string>): seq<string> {
    if words == [] then []
    else (if Cut(words[0]) != "" then [Cut(words[0])] else []) + Arguments(words[1..])
  }

  lemma WordsFrom(s: string, at: nat)
    requires at <= |s|
    ensures var start := SkipBlanks(s, at);
            if start == |s| then Words(s, at) == []
            else Words(s, at) == [s[start..Find(s, ' ', start)]] + Words(s, Find(s, ' ', start))
  {}

  lemma ArgumentsCons(word: string, rest: seq<string>)
    ensures Arguments([word] + rest) == (if Cut(word) != "" then [Cut(word)] else []) + Arguments(rest)
  {
    assert ([word] + rest)[1..] == rest;
  }

  /** The tokenising loop: the type of the request, and its arguments. */
  method Tokenise(buf: string) returns (name: string, arguments: seq<string>)
    requires Words(buf, 0) != []
    ensures name == Cut(Words(buf, 0)[0]) && arguments == Arguments(Words(buf, 0)[1..])
  {
    hide Words, Cut, Arguments, Find;
    name, arguments := "", [];
    var n := 0;
    var at := 0;
    var start := SkipBlanks(buf, at);
    ghost var words := Words(buf, 0);
    while start != |buf|
      invariant 0 <= at <= start <= |buf| && start == SkipBlanks(buf, at)
      invariant n == 0 ==> arguments == [] && Words(buf, at) == words
      invariant n > 0 ==> name == Cut(words[0]) && arguments + Arguments(Words(buf, at)) == Arguments(words[1..])
      decreases |buf| - at
    {
      var end := Find(buf, ' ', start);
      var token := Cut(buf[start..end]);
      WordsFrom(buf, at);
      assert end > start;
      if n == 0 {
        name := token;
        assert words[1..] == Words(buf, end);
        assert [] + Arguments(Words(buf, end)) == Arguments(Words(buf, end));
      } else {
        ArgumentsCons(buf[start..end], Words(buf, end));
        ghost var rest := Arguments(Words(buf, end));
        if |token| > 0 {
          assert arguments + ([token] + rest) == (arguments + [token]) + rest;
          arguments := arguments + [token];
        } else {
          assert arguments + ([] + rest) == arguments + rest;
        }
      }
      n := n + 1;
      at := end;
      start := SkipBlanks(buf, at);
    }
    WordsFrom(buf, at);
    NoArguments(arguments);
  }

  lemma NoArguments(arguments: seq<string>)
    ensures Arguments([]) == [] && arguments + [] == arguments
  {}

  // ---- Requests and options ----

  datatype Format = JSON | SimpleJSON | Table | SimpleTable

  datatype Options = Options(version: nat, format: Format)

  const DEFAULTS := Options(1, JSON)

  function FormatFromString(s: string): Option<Format> {
    match s
    case "json" => Some(JSON)
    case "simple-json" => Some(SimpleJSON)
    case "table" => Some(Table)
    case "simple-table" => Some(SimpleTable)
    case _ => None
  }

  /** How a request ends: an empty "ok" reply, a command for the inverter, or an error reply. */
  datatype Outcome = Accepted | Execute(command: string, arguments: seq<string>) | Rejected

  function Process(options: Options, name: string, arguments: seq<string>): (Options, Outcome) {
    match name
    case "v" =>
      if |arguments| == 1 && Stoul(arguments[0]).Some? && AsUnsigned(Stoul(arguments[0]).value) == 1
      then (options.(version := 1), Accepted) else (options, Rejected)
    case "format" =>
      if |arguments| == 1 && FormatFromString(arguments[0]).Some?
      then (options.(format := FormatFromString(arguments[0]).value), Accepted) else (options, Rejected)
    case "exec" =>
      if |arguments| >= 1 then (options, Execute(arguments[0], arguments[1..])) else (options, Rejected)
    case _ => (options, Rejected)
  }

  /** What becomes of a line: the options afterwards, and how the request ends. */
  function Handled(options: Options, line: string): (Options, Outcome)
    requires Words(line, 0) != []
  {
    var words := Words(line, 0);
    Process(options, Cut(words[0]), Arguments(words[1..]))
  }

  class Session {
    var version: nat
    var format: Format

    function Value(): Options
      reads this
    {
      Options(version, format)
    }

    constructor ()
      ensures Value() == DEFAULTS
    {
      version, format := 1, JSON;
    }

    /** `processRequest`, up to the call of the server. */
    method ProcessRequest(buf: string) returns (outcome: Outcome)
      requires Words(buf, 0) != []
      modifies this
      ensures (Value(), outcome) == Handled(old(Value()), buf)
    {
      var name, arguments := Tokenise(buf);
      if name == "v" {
        if |arguments| != 1 || Stoul(arguments[0]).None? {
          return Rejected;
        }
        var v := AsUnsigned(Stoul(arguments[0]).value);
        if v != 1 {
          return Rejected;
        }
        version := v;
        return Accepted;
      }
      if name == "format" {
        if |arguments| != 1 || FormatFromString(arguments[0]).None? {
          return Rejected;
        }
        format := FormatFromString(arguments[0]).value;
        return Accepted;
      }
      if name == "exec" && |arguments| >= 1 {
        return Execute(arguments[0], arguments[1..]);
      }
      return Rejected;
    }
  }

  // ---- Writing and reading a request ----

  /** A word that a client can send: not empty, without blanks and line breaks. */
  predicate Sendable(word: string) { word != "" && ' ' !in word && LineEnd(word, 0) == |word| }

  function Line(words: seq<string>): string
    requires |words| > 0
  {
    Join(words, ' ') + CRLF
  }

  lemma {:induction false} LineEndIs(s: string, at: nat, k: nat)
    requires at <= k <= |s| && (k < |s| ==> k + 1 < |s| && s[k] == '\r' && s[k + 1] == '\n')
    requires forall i :: at <= i < k ==> !(i + 1 < |s| && s[i] == '\r' && s[i + 1] == '\n')
    ensures LineEnd(s, at) == k
    decreases k - at
  {
    if at < k {
      LineEndIs(s, at + 1, k);
    }
  }

  /** The line break behind the last word is cut off, even behind a lone carriage return. */
  lemma CutLineBreak(word: string)
    requires Sendable(word)
    ensures Cut(word) == word && Cut(word + CRLF) == word
  {
    var s := word + CRLF;
    assert s[|word|] == '\r' && s[|word| + 1] == '\n';
    assert forall i :: 0 <= i < |word| ==> s[i] == word[i];
    LineEndIs(s, 0, |word|);
  }

  /** One word, ended by a blank or by the end of the text. */
  lemma OneWord(s: string, at: nat, word: string)
    requires word != "" && ' ' !in word && at + |word| <= |s| && s[at..at + |word|] == word
    requires at + |word| < |s| ==> s[at + |word|] == ' '
    ensures Words(s, at) == [word] + Words(s, at + |word|)
  {
    assert forall i :: 0 <= i < |word| ==> s[at + i] == word[i];
    assert SkipBlanks(s, at) == at;
    FindIn(s, ' ', at, at + |word|);
  }

  /** Joined words without blanks are the words of the line. */
  lemma {:induction false} WordsOfJoin(words: seq<string>, s: string, at: nat)
    requires |words| > 0 && forall i :: 0 <= i < |words| ==> words[i] != "" && ' ' !in words[i]
    requires at <= |s| && s[at..] == Join(words, ' ')
    ensures Words(s, at) == words
    decreases |words|
  {
    hide Words, Join;
    var w, end := words[0], at + |words[0]|;
    if |words| == 1 {
      LastJoin(words, ' ');
      OneWord(s, at, w);
      WordsFrom(s, end);
    } else {
      var rest := Join(words[1..], ' ');
      assert words == [w] + words[1..];
      JoinCons(w, words[1..], ' ');
      CutAtBlank(s, at, w, rest);
      OneWord(s, at, w);
      WordsOfJoin(words[1..], s, end + 1);
      BlankFirst(s, end);
    }
  }

  lemma CutAtBlank(s: string, at: nat, w: string, rest: string)
    requires at <= |s| && s[at..] == w + [' '] + rest
    ensures var end := at + |w|;
            end < |s| && s[at..end] == w && s[end] == ' ' && s[end + 1..] == rest
  {
    var t := s[at..];
    assert t[..|w|] == w && t[|w|] == ' ' && t[|w| + 1..] == rest;
  }

  lemma BlankFirst(s: string, at: nat)
    requires at < |s| && s[at] == ' '
    ensures Words(s, at) == Words(s, at + 1)
  {
    assert SkipBlanks(s, at) == SkipBlanks(s, at + 1);
  }

  lemma {:induction false} JoinWithTail(words: seq<string>, tail: string)
    requires |words| > 0
    ensures Join(words, ' ') + tail == Join(words[..|words| - 1] + [words[|words| - 1] + tail], ' ')
  {
    var n := |words| - 1;
    var longer := words[..n] + [words[n] + tail];
    if n > 0 {
      JoinWithTail(words[1..], tail);
      assert longer[1..] == words[1..][..n - 1] + [words[1..][n - 1] + tail];
    }
  }

  lemma {:induction false} ArgumentsOf(words: seq<string>, sent: seq<string>)
    requires |words| == |sent|
    requires forall i :: 0 <= i < |words| ==> Sendable(sent[i]) && Cut(words[i]) == sent[i]
    ensures Arguments(words) == sent
  {
    hide Cut, Sendable;
    if words != [] {
      ArgumentsOf(words[1..], sent[1..]);
      NotEmpty(sent[0]);
      assert sent == [sent[0]] + sent[1..];
    }
  }

  lemma NotEmpty(word: string)
    requires Sendable(word)
    ensures word != ""
  {}

  /** A client that writes its words with single blanks and ends the line is understood word by word. */
  lemma RequestReadsBack(sent: seq<string>)
    requires |sent| > 0 && forall i :: 0 <= i < |sent| ==> Sendable(sent[i])
    ensures var words := Words(Line(sent), 0);
            words != [] && Cut(words[0]) == sent[0] && Arguments(words[1..]) == sent[1..]
  {
    var n := |sent| - 1;
    var words := sent[..n] + [sent[n] + CRLF];
    JoinWithTail(sent, CRLF);
    var s := Line(sent);
    assert s[0..] == s;
    forall i | 0 <= i < |sent|
      ensures Cut(words[i]) == sent[i] && words[i] != "" && ' ' !in words[i]
    {
      CutLineBreak(sent[i]);
    }
    WordsOfJoin(words, s, 0);
    ArgumentsOf(words[1..], sent[1..]);
  }

  lemma CutSendable(word: string)
    requires ' ' !in word && Cut(word) != ""
    ensures Sendable(Cut(word))
  {
    var k := LineEnd(word, 0);
    assert forall i :: 0 <= i < k ==> word[..k][i] == word[i];
    LineEndIs(word[..k], 0, k);
  }

  lemma {:induction false} WordsHaveNoBlanks(s: string, at: nat)
    requires at <= |s|
    ensures forall i :: 0 <= i < |Words(s, at)| ==> ' ' !in Words(s, at)[i]
    decreases |s| - at
  {
    hide Words, Find;
    WordsFrom(s, at);
    var start := SkipBlanks(s, at);
    if start < |s| {
      WordsHaveNoBlanks(s, Find(s, ' ', start));
    }
  }

  lemma {:induction false} ArgumentsAreSendable(words: seq<string>)
    requires forall i :: 0 <= i < |words| ==> ' ' !in words[i]
    ensures forall i :: 0 <= i < |Arguments(words)| ==> Sendable(Arguments(words)[i])
  {
    hide Cut, Sendable;
    if words != [] {
      ArgumentsAreSendable(words[1..]);
      if Cut(words[0]) != "" {
        CutSendable(words[0]);
      }
    }
  }

  /** What a request line is understood as. */
  predicate Understood(line: string, words: seq<string>)
    requires |words| > 0
  {
    var found := Words(line, 0);
    found != [] && Cut(found[0]) == words[0] && Arguments(found[1..]) == words[1..]
  }

  /** Words with single blanks between them and a line break behind are understood as they are exactly
      when none of them is empty or contains a blank or a line break. */
  lemma UnderstoodExactly(sent: seq<string>)
    requires |sent| > 0 && sent[0] != ""
    ensures Understood(Line(sent), sent) <==> forall i :: 0 <= i < |sent| ==> Sendable(sent[i])
  {
    hide Cut, Sendable, Arguments, Words;
    if Understood(Line(sent), sent) {
      var found := Words(Line(sent), 0);
      WordsHaveNoBlanks(Line(sent), 0);
      CutSendable(found[0]);
      ArgumentsAreSendable(found[1..]);
      forall i | 0 <= i < |sent|
        ensures Sendable(sent[i])
      {
        assert i > 0 ==> sent[i] == sent[1..][i - 1];
      }
    }
    if forall i :: 0 <= i < |sent| ==> Sendable(sent[i]) {
      RequestReadsBack(sent);
    }
  }

  // ---- What requests do ----

  function FormatNames(): map<string, Format> {
    map["json" := JSON, "simple-json" := SimpleJSON, "table" := Table, "simple-table" := SimpleTable]
  }

  /** A request for version 1: a number that is 1 modulo 2^32. */
  predicate AsksVersion(sent: seq<string>) {
    && |sent| == 2 && sent[0] == "v" && ParseInt(sent[1]).Some?
    && var n := ParseInt(sent[1]).value;
       -0x1_0000_0000_0000_0000 < n < 0x1_0000_0000_0000_0000 && n % 0x1_0000_0000 == 1
  }

  predicate AsksFormat(sent: seq<string>) { |sent| == 2 && sent[0] == "format" && sent[1] in FormatNames() }

  lemma NumberOne(s: string)
    ensures Stoul(s).Some? && AsUnsigned(Stoul(s).value) == 1 <==>
            ParseInt(s).Some? && -U64 < ParseInt(s).value < U64 && ParseInt(s).value % U32 == 1
  {
    hide ParseInt;
    if ParseInt(s).Some? {
      var n := ParseInt(s).value;
      assert (n % U64) % U32 == n % U32;
    }
  }

  /** From the line to the effect: a command with its arguments is handed over exactly for the word "exec" and
      at least one more, and changes no option; a version or a format is taken exactly when asked for
      properly, and nothing else changes; everything else is refused and changes nothing. */
  lemma RequestsDoExactly(options: Options, sent: seq<string>)
    requires |sent| > 0 && forall i :: 0 <= i < |sent| ==> Sendable(sent[i])
    ensures Words(Line(sent), 0) != []
    ensures var (after, outcome) := Handled(options, Line(sent));
            && (forall c: string, a: seq<string> :: outcome == Execute(c, a) <==> sent == ["exec", c] + a)
            && (outcome.Execute? <==> |sent| >= 2 && sent[0] == "exec")
            && (outcome == Accepted <==> AsksVersion(sent) || AsksFormat(sent))
            && after == (if AsksVersion(sent) then Options(1, options.format)
                         else if AsksFormat(sent) then Options(options.version, FormatNames()[sent[1]])
                         else options)
  {
    hide Cut, Words, Arguments, Sendable, Stoul, ParseInt, FormatFromString, FormatNames, Line;
    RequestReadsBack(sent);
    assert sent == [sent[0]] + sent[1..];
    if |sent| == 2 {
      NumberOne(sent[1]);
      FormatsByName(sent[1]);
    }
    forall c: string, a: seq<string>
      ensures Handled(options, Line(sent)).1 == Execute(c, a) <==> sent == ["exec", c] + a
    {
      ExecShape(sent, c, a);
    }
  }

  /** Every other line is handled like the words it is understood as, written properly; without a request type
      it is refused. */
  lemma OtherLines(options: Options, line: string)
    requires Words(line, 0) != []
    ensures var found := Words(line, 0); var words := [Cut(found[0])] + Arguments(found[1..]);
            if words[0] == "" then Handled(options, line) == (options, Rejected)
            else (forall i :: 0 <= i < |words| ==> Sendable(words[i]))
                 && Words(Line(words), 0) != [] && Handled(options, line) == Handled(options, Line(words))
  {
    hide Cut, Words, Arguments, Sendable, Stoul, FormatFromString, Line;
    var found := Words(line, 0);
    var words := [Cut(found[0])] + Arguments(found[1..]);
    assert words[1..] == Arguments(found[1..]);
    if words[0] != "" {
      WordsHaveNoBlanks(line, 0);
      CutSendable(found[0]);
      ArgumentsAreSendable(found[1..]);
      forall i | 0 <= i < |words|
        ensures Sendable(words[i])
      {
        assert i > 0 ==> words[i] == words[1..][i - 1];
      }
      RequestReadsBack(words);
    }
  }

  lemma FormatsByName(s: string)
    ensures FormatFromString(s) == if s in FormatNames() then Some(FormatNames()[s]) else None
  {}

  lemma ExecShape(sent: seq<string>, c: string, a: seq<string>)
    requires |sent| > 0
    ensures sent == ["exec", c] + a <==> |sent| >= 2 && sent[0] == "exec" && sent[1] == c && sent[2..] == a
  {
    if |sent| >= 2 {
      assert sent == [sent[0], sent[1]] + sent[2..];
    }
  }

  /** The words of any line are the pieces between blanks that are not empty, however many blanks there are. */
  lemma {:induction false} WordsArePieces(s: string, at: nat)
    requires at <= |s|
    ensures Words(s, at) == Nonempty(SplitFrom(s, ' ', at))
    decreases |s| - at
  {
    hide Find, Words;
    WordsFrom(s, at);
    var k := Find(s, ' ', at);
    if k == |s| {
      LastPiece(s, at);
    } else if k == at {
      BlankFirst(s, at);
      WordsArePieces(s, at + 1);
      NonemptyCons(s[at..at], SplitFrom(s, ' ', at + 1));
    } else {
      NoBlankFirst(s, at);
      WordsArePieces(s, k + 1);
      BlankFirst(s, k);
      NonemptyCons(s[at..k], SplitFrom(s, ' ', k + 1));
    }
  }

  lemma LastPiece(s: string, at: nat)
    requires at <= |s| && Find(s, ' ', at) == |s|
    ensures Words(s, at) == (if at < |s| then [s[at..]] else []) == Nonempty(SplitFrom(s, ' ', at))
  {
    hide Words, Find;
    WordsFrom(s, at);
    WordsFrom(s, |s|);
    if at < |s| {
      NoBlankFirst(s, at);
      assert s[at..|s|] == s[at..];
      assert [s[at..]] + Words(s, |s|) == [s[at..]];
    }
    NonemptyCons(s[at..], []);
  }

  function Nonempty(pieces: seq<string>): seq<string> {
    if pieces == [] then [] else (if pieces[0] != "" then [pieces[0]] else []) + Nonempty(pieces[1..])
  }

  lemma NonemptyCons(piece: string, pieces: seq<string>)
    ensures Nonempty([piece] + pieces) == (if piece != "" then [piece] else []) + Nonempty(pieces)
    ensures Nonempty([piece]) == if piece != "" then [piece] else []
  {
    assert ([piece] + pieces)[1..] == pieces;
  }

  lemma NoBlankFirst(s: string, at: nat)
    requires at < |s| && s[at] != ' '
    ensures SkipBlanks(s, at) == at
  {}

  // ---- Options over a whole connection ----

  datatype Message = Message(name: string, arguments: seq<string>)

  /** The options after a run of requests. */
  function After(run: seq<Message>): Options {
    if run == [] then DEFAULTS
    else
      var n := |run| - 1;
      Process(After(run[..n]), run[n].name, run[n].arguments).0
  }

  /** The format that a request asks for, if it is a proper format request. */
  function Asked(m: Message): Option<Format> {
    if m.name == "format" && |m.arguments| == 1 && m.arguments[0] in FormatNames()
    then Some(FormatNames()[m.arguments[0]]) else None
  }

  /** In every run the version is 1, and the format is the one last asked for properly. */
  lemma {:induction false} OptionsAreTheLastAsked(run: seq<Message>)
    ensures After(run).version == 1
    ensures (forall i :: 0 <= i < |run| ==> Asked(run[i]).None?) ==> After(run).format == JSON
    ensures forall k :: 0 <= k < |run| && Asked(run[k]).Some? && (forall i :: k < i < |run| ==> Asked(run[i]).None?) ==>
              After(run).format == Asked(run[k]).value
  {
    if run != [] {
      var n := |run| - 1;
      OptionsAreTheLastAsked(run[..n]);
      StepOptions(After(run[..n]), run[n]);
      forall k | 0 <= k < |run| && Asked(run[k]).Some? && (forall i :: k < i < |run| ==> Asked(run[i]).None?)
        ensures After(run).format == Asked(run[k]).value
      {
        if k < n {
          assert run[..n][k] == run[k];
        }
      }
    }
  }

  lemma StepOptions(options: Options, m: Message)
    ensures var next := Process(options, m.name, m.arguments).0;
            && (options.version == 1 ==> next.version == 1)
            && next.format == if Asked(m).Some? then Asked(m).value else options.format
  {
    hide FormatFromString, FormatNames;
    if |m.arguments| == 1 {
      FormatsByName(m.arguments[0]);
    }
  }
}
