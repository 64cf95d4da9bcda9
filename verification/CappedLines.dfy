/** Reading JSONL one line at a time through a buffered reader, with a cap on what is kept. */
module CappedLines {
  import opened Basics

  const NEWLINE: byte := 10

  datatype CappedLine = Complete | Skipped | Eof

  /** A buffered reader as its caller sees it: each refill shows some further non-empty stretch of
      the source, cut wherever the operating system cut it. */
  class BufReader {
    var chunks: seq<seq<byte>>

    ghost predicate Valid()
      reads this
    {
      forall i :: 0 <= i < |chunks| ==> chunks[i] != []
    }

    function Remaining(): seq<byte>
      reads this
    {
      Concat(chunks)
    }

    constructor (chunks: seq<seq<byte>>)
      requires forall i :: 0 <= i < |chunks| ==> chunks[i] != []
      ensures Valid() && this.chunks == chunks
    {
      this.chunks := chunks;
    }

    method FillBuf() returns (available: seq<byte>)
      requires Valid()
      ensures available <= Remaining() && (available == [] <==> Remaining() == [])
      ensures available == if chunks == [] then [] else chunks[0]
    {
      available := if chunks == [] then [] else chunks[0];
    }

    method Consume(amount: nat)
      requires Valid() && amount <= (if chunks == [] then 0 else |chunks[0]|)
      modifies this
      ensures Valid() && Remaining() == old(Remaining())[amount..]
    {
      if chunks != [] {
        var rest := chunks[0][amount..];
        var tail := chunks[1..];
        assert Remaining()[amount..] == rest + Concat(tail);
        chunks := if rest == [] then tail else [rest] + tail;
        assert rest != [] ==> chunks[1..] == tail;
      }
    }
  }

  function Position(s: seq<byte>): Option<nat> {
    if s == [] then None
    else if s[0] == NEWLINE then Some(0)
    else
      var rest := Position(s[1..]);
      if rest.Some? then Some(rest.value + 1) else None
  }

  /** The length of the first line, with its newline if it has one. */
  function LineLength(s: seq<byte>): nat {
    var position := Position(s);
    if position.Some? then position.value + 1 else |s|
  }

  lemma {:induction false} PositionIsFirst(s: seq<byte>)
    ensures Position(s).Some? ==>
              && Position(s).value < |s| && s[Position(s).value] == NEWLINE
              && NEWLINE !in s[..Position(s).value]
    ensures Position(s).None? <==> NEWLINE !in s
  {
    if s != [] {
      PositionIsFirst(s[1..]);
      assert s == [s[0]] + s[1..];
      if Position(s).Some? && s[0] != NEWLINE {
        assert s[..Position(s).value] == [s[0]] + s[1..][..Position(s[1..]).value];
      }
    }
  }

  /** Bytes without a newline in front of the rest lengthen its first line by just their number. */
  lemma {:induction false} LineLengthAfter(front: seq<byte>, rest: seq<byte>)
    requires NEWLINE !in front
    ensures LineLength(front + rest) == |front| + LineLength(rest)
  {
    if front == [] {
      assert front + rest == rest;
    } else {
      AppendSplit(front, rest);
      LineLengthAfter(front[1..], rest);
    }
  }

  /** A stretch whose one newline closes it is the first line, whatever follows. */
  lemma ClosedLine(line: seq<byte>, more: seq<byte>)
    requires line != [] && line[|line| - 1] == NEWLINE && NEWLINE !in line[..|line| - 1]
    ensures LineLength(line + more) == |line|
  {
    var n := |line| - 1;
    LineLengthAfter(line[..n], [NEWLINE] + more);
    assert line + more == line[..n] + ([NEWLINE] + more);
  }

  lemma CutAt<T>(front: seq<T>, middle: seq<T>, later: seq<T>, k: nat)
    requires k <= |middle|
    ensures front + (middle + later) == (front + middle[..k]) + (middle[k..] + later)
    ensures (front + (middle + later))[..|front| + k] == front + middle[..k]
    ensures (front + (middle + later))[|front| + k..] == (middle + later)[k..]
  {
  }

  /** Bytes up to a newline, and the newline, close a line. */
  lemma NewlineCloses(front: seq<byte>, available: seq<byte>, n: nat)
    requires NEWLINE !in front && n < |available| && available[n] == NEWLINE && NEWLINE !in available[..n]
    ensures var line := front + available[..n + 1];
            line[|line| - 1] == NEWLINE && NEWLINE !in line[..|line| - 1]
  {
    var line := front + available[..n + 1];
    assert line[..|line| - 1] == front + available[..n];
  }

  /** The first line of `front + remaining` when its newline is in the stretch `available` of it. */
  lemma LineEndsHere(front: seq<byte>, available: seq<byte>, remaining: seq<byte>)
    requires NEWLINE !in front && available <= remaining && Position(available).Some?
    ensures Position(available).value < |available|
    ensures var rest, take := front + remaining, Position(available).value + 1;
            && LineLength(rest) == |front| + take
            && rest[..|front| + take] == front + available[..take]
            && rest[|front| + take..] == remaining[take..]
  {
    hide *;
    PositionIsFirst(available);
    var n, later := Position(available).value, remaining[|available|..];
    assert remaining == available + later;
    CutAt(front, available, later, n + 1);
    NewlineCloses(front, available, n);
    ClosedLine(front + available[..n + 1], available[n + 1..] + later);
  }

  /** The same when there is no newline in `available` either. */
  lemma LineGoesOn(front: seq<byte>, available: seq<byte>, remaining: seq<byte>)
    requires NEWLINE !in front && available <= remaining && Position(available).None?
    ensures NEWLINE !in front + available
    ensures var rest, later := front + remaining, remaining[|available|..];
            && rest == (front + available) + later
            && LineLength(rest) == |front| + |available| + LineLength(later)
            && LineLength(later) <= |later|
               && rest[|front| + |available| + LineLength(later)..] == later[LineLength(later)..]
  {
    hide *;
    PositionIsFirst(available);
    var later := remaining[|available|..];
    assert remaining == available + later;
    AddAssociates(front, available, later);
    LineLengthBounds(later);
    LineLengthAfter(front + available, later);
    DropAdds(front + available, later, LineLength(later));
  }

  lemma DropAdds<T>(front: seq<T>, later: seq<T>, n: nat)
    requires n <= |later|
    ensures (front + later)[|front| + n..] == later[n..]
  {
  }

  lemma LineLengthBounds(rest: seq<byte>)
    ensures LineLength(rest) <= |rest| && (rest != [] ==> LineLength(rest) > 0)
  {
    PositionIsFirst(rest);
  }

  // ---------------------------------------------------------------- one call

  /** What a call returns, and what it leaves, as a function of the bytes that remain. */
  function Outcome(rest: seq<byte>, max: nat): (CappedLine, seq<byte>) {
    LineLengthBounds(rest);
    if rest == [] then (Eof, [])
    else if LineLength(rest) <= max then (Complete, rest[..LineLength(rest)])
    else (Skipped, [])
  }

  /** At end of file, whatever was gathered is the last line. */
  lemma LineIsLast(line: seq<byte>, max: nat)
    requires NEWLINE !in line && |line| <= max
    ensures LineLength(line) == |line|
    ensures Outcome(line, max) == (if line == [] then Eof else Complete, line)
  {
    PositionIsFirst(line);
    assert line[..|line|] == line;
  }

  lemma OutcomeIs(rest: seq<byte>, max: nat, n: nat)
    requires rest != [] && n == LineLength(rest) <= |rest|
    ensures Outcome(rest, max) == if n <= max then (Complete, rest[..n]) else (Skipped, [])
  {
  }

  method SkipUntilNewline(reader: BufReader)
    requires reader.Valid()
    modifies reader
    ensures reader.Valid()
    ensures LineLength(old(reader.Remaining())) <= |old(reader.Remaining())|
    ensures reader.Remaining() == old(reader.Remaining())[LineLength(old(reader.Remaining()))..]
  {
    hide Position, LineLength, BufReader.Valid, BufReader.Remaining;
    ghost var rest, seen := reader.Remaining(), [];
    LineLengthBounds(rest);
    while true
      invariant reader.Valid() && NEWLINE !in seen
      invariant rest == seen + reader.Remaining()
      decreases |reader.Remaining()|
    {
      var available := reader.FillBuf();
      ghost var remaining := reader.Remaining();
      if available == [] {
        PositionIsFirst([]);
        LineGoesOn(seen, [], []);
        LineLengthBounds([]);
        return;
      }
      var position := Position(available);
      if position.Some? {
        LineEndsHere(seen, available, remaining);
        reader.Consume(position.value + 1);
        return;
      }
      LineGoesOn(seen, available, remaining);
      reader.Consume(|available|);
      seen := seen + available;
    }
  }

  /** One line into `buf`, which never holds more than `max` bytes. The outcome and the place where
      reading goes on depend on the remaining bytes alone, not on how the reader cuts them. */
  method ReadCappedLine(reader: BufReader, max: nat) returns (outcome: CappedLine, buf: seq<byte>)
    requires reader.Valid()
    modifies reader
    ensures reader.Valid() && |buf| <= max
    ensures (outcome, buf) == Outcome(old(reader.Remaining()), max)
    ensures LineLength(old(reader.Remaining())) <= |old(reader.Remaining())|
    ensures reader.Remaining() == old(reader.Remaining())[LineLength(old(reader.Remaining()))..]
  {
    hide Position, LineLength, Outcome, BufReader.Valid, BufReader.Remaining;
    ghost var rest := reader.Remaining();
    LineLengthBounds(rest);
    buf := [];
    while true
      invariant reader.Valid() && NEWLINE !in buf && |buf| <= max
      invariant rest == buf + reader.Remaining()
      decreases |reader.Remaining()|
    {
      var available := reader.FillBuf();
      if available == [] {
        assert rest == buf;
        LineIsLast(buf, max);
        outcome := if buf == [] then Eof else Complete;
        return;
      }
      ghost var remaining := reader.Remaining();
      var position := Position(available);
      if position.Some? {
        var take := position.value + 1;
        LineEndsHere(buf, available, remaining);
        OutcomeIs(rest, max, |buf| + take);
        reader.Consume(take);
        if |buf| + take > max {
          return Skipped, [];
        }
        buf := buf + available[..take];
        return Complete, buf;
      }
      LineGoesOn(buf, available, remaining);
      reader.Consume(|available|);
      if |buf| + |available| > max {
        OutcomeIs(rest, max, LineLength(rest));
        SkipUntilNewline(reader);
        return Skipped, [];
      }
      buf := buf + available;
    }
  }

  // ---------------------------------------------------------------- a whole file

  function Lines(s: seq<byte>): seq<seq<byte>>
    decreases |s|
  {
    LineLengthBounds(s);
    if s == [] then [] else [s[..LineLength(s)]] + Lines(s[LineLength(s)..])
  }

  /** Calls until end of file, on the contract of one call. */
  function Calls(s: seq<byte>, max: nat): seq<(CappedLine, seq<byte>)>
    decreases |s|
  {
    LineLengthBounds(s);
    if s == [] then [Outcome(s, max)] else [Outcome(s, max)] + Calls(s[LineLength(s)..], max)
  }

  /** A line is non-empty and holds no newline except perhaps as its last byte. */
  predicate IsLine(line: seq<byte>) {
    line != [] && NEWLINE !in line[..|line| - 1]
  }

  predicate IsClosed(line: seq<byte>) {
    line != [] && line[|line| - 1] == NEWLINE
  }

  lemma FirstLine(s: seq<byte>)
    requires s != []
    ensures 0 < LineLength(s) <= |s|
    ensures var line := s[..LineLength(s)];
            IsLine(line) && (IsClosed(line) || line == s)
  {
    PositionIsFirst(s);
    var line := s[..LineLength(s)];
    if Position(s).Some? {
      assert line[..|line| - 1] == s[..Position(s).value];
    } else {
      assert line == s;
      forall c | c in s[..|s| - 1] ensures c in s {
      }
    }
  }

  /** The lines are the file: they concatenate to it, each is a line, and all but perhaps the last
      are closed by a newline. */
  lemma {:induction false} LinesAreTheFile(s: seq<byte>)
    ensures Concat(Lines(s)) == s
    ensures forall i :: 0 <= i < |Lines(s)| ==> IsLine(Lines(s)[i])
    ensures forall i :: 0 <= i < |Lines(s)| - 1 ==> IsClosed(Lines(s)[i])
    decreases |s|
  {
    hide IsLine, IsClosed, LineLength;
    if s != [] {
      FirstLine(s);
      var line, rest := s[..LineLength(s)], s[LineLength(s)..];
      LinesAreTheFile(rest);
      assert Lines(s) == [line] + Lines(rest);
      assert Lines(s)[1..] == Lines(rest);
      assert s == line + rest;
      if line == s { assert rest == []; }
    }
  }

  /** Repeated calls give one outcome per line, in order: the exact line when it fits the cap with
      its newline, a skip otherwise, and then end of file. */
  lemma {:induction false} OneOutcomePerLine(s: seq<byte>, max: nat)
    ensures |Calls(s, max)| == |Lines(s)| + 1 && Calls(s, max)[|Lines(s)|] == (Eof, [])
    ensures forall i :: 0 <= i < |Lines(s)| ==>
              Calls(s, max)[i] == if |Lines(s)[i]| <= max then (Complete, Lines(s)[i]) else (Skipped, [])
    decreases |s|
  {
    if s != [] {
      LineLengthBounds(s);
      OneOutcomePerLine(s[LineLength(s)..], max);
    }
  }

  /** The callers' loop: read until end of file. */
  method ReadAll(reader: BufReader, max: nat) returns (calls: seq<(CappedLine, seq<byte>)>)
    requires reader.Valid()
    modifies reader
    ensures calls == Calls(old(reader.Remaining()), max)
  {
    hide Position, LineLength, BufReader.Valid, BufReader.Remaining;
    ghost var all := reader.Remaining();
    calls := [];
    while true
      invariant reader.Valid()
      invariant Calls(all, max) == calls + Calls(reader.Remaining(), max)
      decreases |reader.Remaining()|
    {
      ghost var before := reader.Remaining();
      LineLengthBounds(before);
      var outcome, buf := ReadCappedLine(reader, max);
      if outcome == Eof {
        return calls + [(outcome, buf)];
      }
      AddAssociates(calls, [(outcome, buf)], Calls(reader.Remaining(), max));
      calls := calls + [(outcome, buf)];
    }
  }
}
