/** Splitting at a separator (src/util.cc:38-51), against joining. */
module Splitting {

  /** The index of the first separator from `from` on, or the length (std::string::find). */
  function Find(s: string, sep: char, from: nat): (k: nat)
    requires from <= |s|
    ensures from <= k <= |s|
    ensures forall i :: from <= i < k ==> s[i] != sep
    ensures k < |s| ==> s[k] == sep
    decreases |s| - from
  {
    if from == |s| || s[from] == sep then from else Find(s, sep, from + 1)
  }

  /** The pieces of `s` from `from` on. */
  function SplitFrom(s: string, sep: char, from: nat): (pieces: seq<string>)
    requires from <= |s|
    ensures |pieces| > 0
    decreases |s| - from
  {
    var k := Find(s, sep, from);
    if k == |s| then [s[from..]] else [s[from..k]] + SplitFrom(s, sep, k + 1)
  }

  function Split(s: string, sep: char): seq<string> { SplitFrom(s, sep, 0) }

  method SplitLoop(s: string, sep: char) returns (output: seq<string>)
    ensures output == Split(s, sep)
  {
    output := [];
    var prev := 0;
    var pos := Find(s, sep, 0);
    while pos != |s|
      invariant 0 <= prev <= pos <= |s| && pos == Find(s, sep, prev)
      invariant Split(s, sep) == output + SplitFrom(s, sep, prev)
      decreases |s| - prev
    {
      output := output + [s[prev..pos]];
      prev := pos + 1;
      pos := Find(s, sep, prev);
    }
    output := output + [s[prev..]];
  }

  function Join(pieces: seq<string>, sep: char): string
    requires |pieces| > 0
  {
    if |pieces| == 1 then pieces[0] else pieces[0] + [sep] + Join(pieces[1..], sep)
  }

  predicate Free(pieces: seq<string>, sep: char) {
    forall i :: 0 <= i < |pieces| ==> sep !in pieces[i]
  }

  lemma JoinCons(piece: string, pieces: seq<string>, sep: char)
    requires |pieces| > 0
    ensures Join([piece] + pieces, sep) == piece + [sep] + Join(pieces, sep)
  {
    assert ([piece] + pieces)[1..] == pieces;
  }

  lemma LastJoin(pieces: seq<string>, sep: char)
    requires |pieces| == 1
    ensures Join(pieces, sep) == pieces[0]
  {}

  lemma CutAt(s: string, sep: char, start: nat, end: nat)
    requires start <= end < |s| && s[end] == sep
    ensures s[start..] == s[start..end] + [sep] + s[end + 1..]
  {}

  lemma {:induction false} JoinSplitFrom(s: string, sep: char, from: nat)
    requires from <= |s|
    ensures Join(SplitFrom(s, sep, from), sep) == s[from..] && Free(SplitFrom(s, sep, from), sep)
    decreases |s| - from
  {
    hide Find;
    var k := Find(s, sep, from);
    if k < |s| {
      JoinSplitFrom(s, sep, k + 1);
      var rest := SplitFrom(s, sep, k + 1);
      JoinCons(s[from..k], rest, sep);
      CutAt(s, sep, from, k);
      assert sep !in s[from..k];
    }
  }

  /** Joining the pieces gives back the input, and no piece contains the separator. */
  lemma JoinSplit(s: string, sep: char)
    ensures Join(Split(s, sep), sep) == s && Free(Split(s, sep), sep)
  {
    JoinSplitFrom(s, sep, 0);
    assert s[0..] == s;
  }

  lemma {:induction false} FindIn(s: string, sep: char, from: nat, k: nat)
    requires from <= k <= |s| && (forall i :: from <= i < k ==> s[i] != sep) && (k < |s| ==> s[k] == sep)
    ensures Find(s, sep, from) == k
    decreases k - from
  {
    if from < k {
      FindIn(s, sep, from + 1, k);
    }
  }

  lemma {:induction false} SplitJoinFrom(pieces: seq<string>, sep: char, s: string, from: nat)
    requires |pieces| > 0 && Free(pieces, sep)
    requires from <= |s| && s[from..] == Join(pieces, sep)
    ensures SplitFrom(s, sep, from) == pieces
    decreases |pieces|
  {
    hide Find, Join;
    var k := from + |pieces[0]|;
    if |pieces| == 1 {
      LastJoin(pieces, sep);
      assert forall i :: from <= i < k ==> s[i] == s[from..][i - from];
      FindIn(s, sep, from, k);
    } else {
      var rest := Join(pieces[1..], sep);
      assert pieces == [pieces[0]] + pieces[1..];
      JoinCons(pieces[0], pieces[1..], sep);
      FirstPiece(s, sep, from, pieces[0], rest);
      SplitJoinFrom(pieces[1..], sep, s, k + 1);
    }
  }

  lemma FirstPiece(s: string, sep: char, from: nat, piece: string, rest: string)
    requires from <= |s| && s[from..] == piece + [sep] + rest && sep !in piece
    ensures var k := from + |piece|;
            k < |s| && Find(s, sep, from) == k && s[from..k] == piece && s[k + 1..] == rest
  {
    var t, k := s[from..], from + |piece|;
    assert t[..|piece|] == piece && t[|piece|] == sep && t[|piece| + 1..] == rest;
    assert forall i :: from <= i < k ==> s[i] == t[i - from] == piece[i - from];
    FindIn(s, sep, from, k);
  }

  /** Splitting is the only way to undo joining: separator-free pieces come back as they were. */
  lemma SplitJoin(pieces: seq<string>, sep: char)
    requires |pieces| > 0 && Free(pieces, sep)
    ensures Split(Join(pieces, sep), sep) == pieces
  {
    var s := Join(pieces, sep);
    assert s[0..] == s;
    SplitJoinFrom(pieces, sep, s, 0);
  }
}
