/** The reader of the live transcript: it cuts a stream of text chunks into lines. */
module LineStream {
  import opened Sequences
  import opened Wrappers

  const MAX_BUFFER: nat := 300_000

  // ----- The simple form

  /** The index of the first line feed, or |s|. */
  function IndexOfNewline(s: string): (i: nat)
    ensures i <= |s| && '\n' !in s[..i] && (i < |s| ==> s[i] == '\n')
  {
    if s == [] || s[0] == '\n' then 0
    else
      var i := 1 + IndexOfNewline(s[1..]);
      assert s[..i] == [s[0]] + s[1..][..i - 1];
      i
  }

  /** The newline-terminated lines of a whole text. */
  function Lines(s: string): seq<string>
    decreases |s|
  {
    var i := IndexOfNewline(s);
    if i == |s| then [] else [s[..i]] + Lines(s[i + 1..])
  }

  /** What follows the last line feed of a whole text. */
  function Tail(s: string): string
    decreases |s|
  {
    var i := IndexOfNewline(s);
    if i == |s| then s else Tail(s[i + 1..])
  }

  function Concat(chunks: seq<string>): string {
    if chunks == [] then [] else Concat(chunks[..|chunks| - 1]) + chunks[|chunks| - 1]
  }

  lemma {:induction false} FirstNewline(s: string, i: nat)
    requires i <= |s| && '\n' !in s[..i] && (i < |s| ==> s[i] == '\n')
    ensures IndexOfNewline(s) == i
  {
    if i > 0 {
      assert s[0] == s[..i][0];
      assert s[1..][..i - 1] == s[..i][1..];
      FirstNewline(s[1..], i - 1);
    }
  }

  lemma NewlineAfter(s: string, t: string)
    ensures var i := IndexOfNewline(s);
            IndexOfNewline(s + t) == if i < |s| then i else |s| + IndexOfNewline(t)
  {
    var i, j := IndexOfNewline(s), IndexOfNewline(t);
    if i < |s| {
      assert (s + t)[..i] == s[..i];
      FirstNewline(s + t, i);
    } else {
      assert (s + t)[..|s| + j] == s[..i] + t[..j];
      FirstNewline(s + t, |s| + j);
    }
  }

  lemma FirstLine(s: string)
    requires IndexOfNewline(s) < |s|
    ensures var i := IndexOfNewline(s);
            Lines(s) == [s[..i]] + Lines(s[i + 1..]) && Tail(s) == Tail(s[i + 1..])
  {
  }

  lemma FirstLineOfBoth(s: string, t: string)
    requires IndexOfNewline(s) < |s|
    ensures var i := IndexOfNewline(s);
            IndexOfNewline(s + t) == i && (s + t)[..i] == s[..i] && (s + t)[i + 1..] == s[i + 1..] + t
  {
    NewlineAfter(s, t);
    DropWithin(s, t, IndexOfNewline(s) + 1);
  }

  /** A text and what is appended to it: the tail is carried over. */
  lemma {:induction false} LinesAppend(s: string, t: string)
    ensures Lines(s + t) == Lines(s) + Lines(Tail(s) + t)
    ensures Tail(s + t) == Tail(Tail(s) + t)
    decreases |s|
  {
    var i := IndexOfNewline(s);
    if i < |s| {
      FirstLine(s);
      FirstLineOfBoth(s, t);
      FirstLine(s + t);
      LinesAppend(s[i + 1..], t);
      Assoc([s[..i]], Lines(s[i + 1..]), Lines(Tail(s) + t));
    } else {
      NilUnit(Lines(s + t));
    }
  }

  lemma OneMoreLine(taken: seq<string>, s: string)
    requires IndexOfNewline(s) < |s|
    ensures var i := IndexOfNewline(s);
            && (taken + Lines(s))[|taken|] == s[..i]
            && taken + [s[..i]] + Lines(s[i + 1..]) == taken + Lines(s)
            && taken <= taken + Lines(s)
  {
    var i := IndexOfNewline(s);
    Assoc(taken, [s[..i]], Lines(s[i + 1..]));
  }

  // ----- What stops the reader

  /** What becomes of a line: its message is handled, or it cannot be parsed, or the session is over by
      then, or the message itself says that the call ended. */
  datatype Verdict = Handled | Malformed | Stale | Ended

  type Judge = (nat, string) -> Verdict

  /** The first `n` lines were handled. */
  ghost predicate AllHandled(lines: seq<string>, n: nat, judge: Judge) {
    n <= |lines| && forall k :: 0 <= k < n ==> judge(k, lines[k]).Handled?
  }

  /** The first `n` lines were handled and line `n` stopped the reader. */
  ghost predicate StoppedAt(lines: seq<string>, n: nat, judge: Judge, stop: Verdict) {
    AllHandled(lines, n, judge) && n < |lines| && judge(n, lines[n]) == stop && !stop.Handled?
  }

  datatype Outcome = Open | Exhausted | Aborted | TooLong | Stopped(verdict: Verdict)

  // ----- The reader

  /** The text of the first `used` chunks. */
  function Received(chunks: seq<string>, used: nat): string
    requires used <= |chunks|
  {
    Concat(chunks[..used])
  }

  /** None of the first `used` chunks made the buffer too long. */
  ghost predicate UnderGuard(chunks: seq<string>, used: nat)
    requires used <= |chunks|
  {
    forall i :: 0 <= i < used ==> |Tail(Received(chunks, i))| + |chunks[i]| <= 300_000
  }

  ghost predicate FirstTooLong(chunks: seq<string>, used: nat)
    requires used <= |chunks|
  {
    && used > 0 && UnderGuard(chunks, used - 1)
    && |Tail(Received(chunks, used - 1))| + |chunks[used - 1]| > 300_000
  }

  /** Takes the complete lines out of a buffer, in order: `taken` were handled before, `rest` stays. */
  method TakeLines(taken: seq<string>, buffer: string, judge: Judge)
    returns (outcome: Outcome, handled: seq<string>, rest: string)
    requires AllHandled(taken, |taken|, judge)
    ensures handled <= taken + Lines(buffer)
    ensures match outcome
            case Open => handled == taken + Lines(buffer) && rest == Tail(buffer) && AllHandled(handled, |handled|, judge)
            case Stopped(verdict) => StoppedAt(taken + Lines(buffer), |handled|, judge, verdict)
            case _ => false
  {
    ghost var all := taken + Lines(buffer);
    handled, rest := taken, buffer;
    var newline := IndexOfNewline(rest);
    while newline < |rest|
      invariant newline == IndexOfNewline(rest)
      invariant handled + Lines(rest) == all && AllHandled(all, |handled|, judge)
      invariant Tail(rest) == Tail(buffer)
      decreases |rest|
    {
      var line := rest[..newline];
      OneMoreLine(handled, rest);
      var verdict := judge(|handled|, line);
      if verdict.Malformed? {
        return Stopped(verdict), handled, rest;
      }
      rest := rest[newline + 1..];
      if !verdict.Handled? {
        return Stopped(verdict), handled, rest;
      }
      handled := handled + [line];
      newline := IndexOfNewline(rest);
    }
    NilUnit(handled);
    return Open, handled, rest;
  }

  /** Reads chunk after chunk until the stream ends or something stops it. The messages handled are the
      lines of the whole text received, however it was cut: all of them when the stream ended or the
      reader was aborted between two chunks, those before the stopping one otherwise. */
  method ReadAll(chunks: seq<string>, judge: Judge, aborted: nat -> bool)
    returns (outcome: Outcome, handled: seq<string>, buffer: string, used: nat)
    ensures !outcome.Open? && used <= |chunks| && handled <= Lines(Received(chunks, used))
    ensures outcome.Exhausted? || outcome.Aborted? ==>
              && handled == Lines(Received(chunks, used)) && buffer == Tail(Received(chunks, used))
              && AllHandled(handled, |handled|, judge)
    ensures outcome.Exhausted? ==> used == |chunks|
    ensures outcome.Aborted? ==> aborted(used)
    ensures outcome.Stopped? ==> StoppedAt(Lines(Received(chunks, used)), |handled|, judge, outcome.verdict)
    ensures outcome.TooLong? <==> FirstTooLong(chunks, used)
    ensures outcome.TooLong? ==> handled == Lines(Received(chunks, used - 1))
  {
    handled, buffer, used := [], [], 0;
    while !aborted(used)
      invariant used <= |chunks| && UnderGuard(chunks, used)
      invariant buffer == Tail(Received(chunks, used)) && handled == Lines(Received(chunks, used))
      invariant AllHandled(handled, |handled|, judge)
      decreases |chunks| - used
    {
      if used == |chunks| {
        return Exhausted, handled, buffer, used;
      }
      ReceivesOneMore(chunks, used);
      buffer := buffer + chunks[used];
      used := used + 1;
      if |buffer| > MAX_BUFFER {
        return TooLong, handled, buffer, used;
      }
      outcome, handled, buffer := TakeLines(handled, buffer, judge);
      if !outcome.Open? {
        return;
      }
    }
    return Aborted, handled, buffer, used;
  }

  lemma ReceivesOneMore(chunks: seq<string>, used: nat)
    requires used < |chunks|
    ensures var before, now := Received(chunks, used), Received(chunks, used + 1);
            Lines(now) == Lines(before) + Lines(Tail(before) + chunks[used]) && Tail(now) == Tail(Tail(before) + chunks[used])
            && Lines(before) <= Lines(now)
  {
    assert chunks[..used + 1][..used] == chunks[..used];
    LinesAppend(Received(chunks, used), chunks[used]);
  }

  // ----- Cutting does not matter

  /** Lines and tail are the text again. */
  lemma {:induction false} LinesAreLossless(s: string)
    ensures Terminated(Lines(s)) + Tail(s) == s
    decreases |s|
  {
    var i := IndexOfNewline(s);
    if i < |s| {
      var rest := s[i + 1..];
      LinesAreLossless(rest);
      TerminatedCons(s[..i], Lines(rest));
      Assoc(s[..i] + ['\n'], Terminated(Lines(rest)), Tail(rest));
      CutAt(s, i);
    }
  }

  lemma CutAt(s: string, i: nat)
    requires i < |s| && s[i] == '\n'
    ensures s == s[..i] + ['\n'] + s[i + 1..]
  {
  }

  /** No line holds a line feed, and neither does the tail. */
  lemma {:induction false} LinesAreLines(s: string)
    ensures '\n' !in Tail(s) && forall line :: line in Lines(s) ==> '\n' !in line
    decreases |s|
  {
    var i := IndexOfNewline(s);
    if i < |s| {
      LinesAreLines(s[i + 1..]);
    } else {
      assert s[..i] == s;
    }
  }

  lemma TerminatedCons(line: string, rest: seq<string>)
    ensures Terminated([line] + rest) == line + ['\n'] + Terminated(rest)
  {
    assert ([line] + rest)[1..] == rest;
  }

  function Terminated(lines: seq<string>): string {
    if lines == [] then [] else lines[0] + ['\n'] + Terminated(lines[1..])
  }

  lemma {:induction false} ReceivedIsPrefix(chunks: seq<string>, used: nat)
    requires used <= |chunks|
    ensures Lines(Received(chunks, used)) <= Lines(Concat(chunks))
    decreases |chunks|
  {
    if used == |chunks| {
      assert chunks[..used] == chunks;
    } else {
      var front := chunks[..|chunks| - 1];
      ReceivedIsPrefix(front, used);
      assert front[..used] == chunks[..used];
      LinesAppend(Concat(front), chunks[|chunks| - 1]);
    }
  }

  /** Where a whole run came to rest in the lines of the whole text. */
  ghost predicate RanThrough(text: string, judge: Judge, handled: seq<string>, outcome: Outcome) {
    && handled <= Lines(text)
    && (outcome.Exhausted? ==> handled == Lines(text) && AllHandled(Lines(text), |handled|, judge))
    && (outcome.Stopped? ==> StoppedAt(Lines(text), |handled|, judge, outcome.verdict))
  }

  lemma StopsNoLater(text: string, judge: Judge, a: seq<string>, outcomeA: Outcome, n: nat)
    requires RanThrough(text, judge, a, outcomeA) && (outcomeA.Exhausted? || outcomeA.Stopped?)
    requires AllHandled(Lines(text), n, judge)
    ensures n <= |a|
  {
    if outcomeA.Stopped? {
      assert !judge(|a|, Lines(text)[|a|]).Handled?;
    }
  }

  lemma RunsAgree(text: string, judge: Judge, a: seq<string>, outcomeA: Outcome, b: seq<string>, outcomeB: Outcome)
    requires RanThrough(text, judge, a, outcomeA) && RanThrough(text, judge, b, outcomeB)
    requires (outcomeA.Exhausted? || outcomeA.Stopped?) && (outcomeB.Exhausted? || outcomeB.Stopped?)
    ensures a == b && outcomeA == outcomeB
  {
    StopsNoLater(text, judge, a, outcomeA, |b|);
    StopsNoLater(text, judge, b, outcomeB, |a|);
  }

  method ReadWhole(chunks: seq<string>, judge: Judge) returns (handled: seq<string>, outcome: Outcome)
    ensures outcome.Exhausted? || outcome.Stopped? || outcome.TooLong?
    ensures RanThrough(Concat(chunks), judge, handled, outcome)
    ensures outcome.TooLong? ==> !UnderGuard(chunks, |chunks|)
  {
    var buffer, used;
    outcome, handled, buffer, used := ReadAll(chunks, judge, n => false);
    ReceivedIsPrefix(chunks, used);
    assert chunks[..|chunks|] == chunks;
  }

  /** However one text is cut into chunks that stay under the guard, the same messages are handled and
      the reader ends in the same way. */
  method ReadTwice(first: seq<string>, second: seq<string>, judge: Judge)
    returns (a: seq<string>, b: seq<string>, outcomeA: Outcome, outcomeB: Outcome)
    requires Concat(first) == Concat(second)
    requires UnderGuard(first, |first|) && UnderGuard(second, |second|)
    ensures a == b && outcomeA == outcomeB
    ensures RanThrough(Concat(first), judge, a, outcomeA)
  {
    a, outcomeA := ReadWhole(first, judge);
    b, outcomeB := ReadWhole(second, judge);
    RunsAgree(Concat(first), judge, a, outcomeA, b, outcomeB);
  }
}
