/** The incremental line framing of the CLI's standard output: AcpClient.handleStdoutChunk and
    the end-of-stream tail.  Chunks are the strings the streaming decoder hands over. */
module Framing {
  const MAX_STDOUT_BUFFER_BYTES := 64 * 1024 * 1024

  // ---------- What the stream means ----------

  function NewlineAt(s: string): (k: int)
    ensures -1 <= k < |s|
    ensures k >= 0 ==> s[k] == '\n' && '\n' !in s[..k]
    ensures k < 0 ==> '\n' !in s
  {
    if s == "" then -1
    else if s[0] == '\n' then 0
    else var k := NewlineAt(s[1..]); if k < 0 then -1 else k + 1
  }

  /** The newline-terminated lines of a stream, terminators dropped. */
  function Lines(s: string): seq<string>
    decreases |s|
  {
    var k := NewlineAt(s);
    if k < 0 then [] else [s[..k]] + Lines(s[k + 1..])
  }

  /** What follows the last newline. */
  function Tail(s: string): string
    decreases |s|
  {
    var k := NewlineAt(s);
    if k < 0 then s else Tail(s[k + 1..])
  }

  function Rejoin(lines: seq<string>, tail: string): string {
    if lines == [] then tail else lines[0] + "\n" + Rejoin(lines[1..], tail)
  }

  lemma {:induction false} NewlineIsFirst(s: string, k: nat)
    requires k < |s| && s[k] == '\n' && '\n' !in s[..k]
    ensures NewlineAt(s) == k
  {
    if k > 0 {
      assert s[0] in s[..k];
      assert s[1..][..k - 1] == s[..k][1..];
      NewlineIsFirst(s[1..], k - 1);
    }
  }

  lemma OneLineOff(s: string)
    ensures var k := NewlineAt(s);
            if k < 0 then Lines(s) == [] && Tail(s) == s
            else Lines(s) == [s[..k]] + Lines(s[k + 1..]) && Tail(s) == Tail(s[k + 1..])
  {
    hide NewlineAt;
  }

  lemma {:induction false} LinesRejoin(s: string)
    ensures Rejoin(Lines(s), Tail(s)) == s
    ensures '\n' !in Tail(s) && forall l <- Lines(s) :: '\n' !in l
    decreases |s|
  {
    hide NewlineAt, Lines, Tail;
    OneLineOff(s);
    var k := NewlineAt(s);
    if k >= 0 {
      LinesRejoin(s[k + 1..]);
      assert Lines(s)[1..] == Lines(s[k + 1..]);
      assert s == s[..k] + "\n" + s[k + 1..];
    }
  }

  /** Lines and Tail are the only way to cut a stream at its newlines. */
  lemma {:induction false} SplitIsUnique(lines: seq<string>, tail: string)
    requires '\n' !in tail && forall l <- lines :: '\n' !in l
    ensures Lines(Rejoin(lines, tail)) == lines && Tail(Rejoin(lines, tail)) == tail
  {
    if lines != [] {
      var rest := Rejoin(lines[1..], tail);
      var s := Rejoin(lines, tail);
      var n := |lines[0]|;
      assert lines[0] in lines;
      assert s == lines[0] + "\n" + rest;
      assert s[..n] == lines[0] && s[n] == '\n' && s[n + 1..] == rest;
      NewlineIsFirst(s, n);
      SplitIsUnique(lines[1..], tail);
    }
  }

  // ---------- The buffer ----------

  function Utf8Bytes(c: char): nat {
    var n := c as int;
    if n < 0x80 then 1 else if n < 0x800 then 2 else if n < 0x1_0000 then 3 else 4
  }

  function Utf8Length(s: string): nat {
    if s == "" then 0 else Utf8Bytes(s[0]) + Utf8Length(s[1..])
  }

  predicate WithinCap(s: string) { Utf8Length(s) <= MAX_STDOUT_BUFFER_BYTES }

  /** `replace(/\r$/, '')` */
  function StripReturn(line: string): string {
    if line != "" && line[|line| - 1] == '\r' then line[..|line| - 1] else line
  }

  function Stripped(lines: seq<string>): seq<string> {
    if lines == [] then [] else [StripReturn(lines[0])] + Stripped(lines[1..])
  }

  lemma {:induction false} StrippedConcat(a: seq<string>, b: seq<string>)
    ensures Stripped(a + b) == Stripped(a) + Stripped(b)
  {
    if a == [] {
      assert a + b == b;
    } else {
      StrippedConcat(a[1..], b);
      assert (a + b)[1..] == a[1..] + b;
    }
  }

  datatype Frame = Frame(buffer: string, handled: seq<string>, overflows: nat)

  /** One chunk: the cap is tested before any line is taken out. */
  function Feed(f: Frame, chunk: string): Frame {
    var whole := f.buffer + chunk;
    if !WithinCap(whole) then Frame("", f.handled, f.overflows + 1)
    else Frame(Tail(whole), f.handled + Stripped(Lines(whole)), f.overflows)
  }

  /** handleLine is also given a tail that is not blank when the stream ends. */
  function Finish(f: Frame, blank: string -> bool): Frame {
    Frame("", if blank(f.buffer) then f.handled else f.handled + [f.buffer], f.overflows)
  }

  class StdoutFramer {
    var buffer: string
    /** Every argument handleLine was called with, in order. */
    var handled: seq<string>
    /** How often the CLI was terminated for a line over the cap. */
    var overflows: nat

    function View(): Frame
      reads this
    {
      Frame(buffer, handled, overflows)
    }

    constructor ()
      ensures View() == Frame("", [], 0)
    {
      buffer, handled, overflows := "", [], 0;
    }

    method HandleStdoutChunk(chunk: string)
      modifies this
      ensures View() == Feed(old(View()), chunk)
    {
      hide WithinCap, StripReturn;
      buffer := buffer + chunk;
      if !WithinCap(buffer) {
        overflows := overflows + 1;
        buffer := "";
        return;
      }
      ghost var whole := buffer;
      var newline := NewlineAt(buffer);
      while newline >= 0
        invariant newline == NewlineAt(buffer) && overflows == old(overflows)
        invariant Tail(whole) == Tail(buffer)
        invariant old(handled) + Stripped(Lines(whole)) == handled + Stripped(Lines(buffer))
        decreases |buffer|
      {
        var line := StripReturn(buffer[..newline]);
        assert Lines(buffer) == [buffer[..newline]] + Lines(buffer[newline + 1..]);
        assert Stripped(Lines(buffer)) == [line] + Stripped(Lines(buffer[newline + 1..]));
        assert handled + ([line] + Stripped(Lines(buffer[newline + 1..]))) ==
               handled + [line] + Stripped(Lines(buffer[newline + 1..]));
        buffer := buffer[newline + 1..];
        handled := handled + [line];
        newline := NewlineAt(buffer);
      }
      assert handled + Stripped([]) == handled;
    }

    method EndOfStream(blank: string -> bool)
      modifies this
      ensures View() == Finish(old(View()), blank)
    {
      var tail := buffer;
      buffer := "";
      if !blank(tail) {
        handled := handled + [tail];
      }
    }
  }

  // ---------- Any cut of the stream gives the same lines ----------

  function Concat(chunks: seq<string>): string {
    if chunks == [] then "" else Concat(chunks[..|chunks| - 1]) + chunks[|chunks| - 1]
  }

  function FeedAll(chunks: seq<string>): Frame {
    if chunks == [] then Frame("", [], 0)
    else Feed(FeedAll(chunks[..|chunks| - 1]), chunks[|chunks| - 1])
  }

  /** Every chunk, with what was left of the stream before it, fits the cap. */
  ghost predicate FitsCap(chunks: seq<string>) {
    forall k :: 0 <= k < |chunks| ==> PieceFits(chunks, k)
  }

  predicate PieceFits(chunks: seq<string>, k: nat)
    requires k < |chunks|
  {
    WithinCap(Tail(Concat(chunks[..k])) + chunks[k])
  }

  lemma {:induction false} SplitPrefix(a: string, b: string)
    ensures Lines(a + b) == Lines(a) + Lines(Tail(a) + b)
    ensures Tail(a + b) == Tail(Tail(a) + b)
    decreases |a|
  {
    hide NewlineAt, Lines, Tail;
    var k := NewlineAt(a);
    OneLineOff(a);
    if k < 0 {
      assert [] + Lines(a + b) == Lines(a + b);
    } else {
      var s := a + b;
      assert s[..k] == a[..k] && s[k + 1..] == a[k + 1..] + b;
      NewlineIsFirst(s, k);
      OneLineOff(s);
      SplitPrefix(a[k + 1..], b);
      var first, mid, last := [a[..k]], Lines(a[k + 1..]), Lines(Tail(a[k + 1..]) + b);
      assert first + (mid + last) == first + mid + last;
    }
  }

  lemma EmptyFrame()
    ensures Tail("") == "" && Stripped(Lines("")) == []
  {}

  /** The bytes are framed as one stream, however they were cut, exactly while no buffer
      exceeds the cap. */
  lemma {:induction false} ChunkingIsInvisible(chunks: seq<string>)
    ensures FeedAll(chunks).overflows == 0 <==> FitsCap(chunks)
    ensures FitsCap(chunks) ==>
              FeedAll(chunks) == Frame(Tail(Concat(chunks)), Stripped(Lines(Concat(chunks))), 0)
  {
    hide WithinCap, Stripped, Lines, Tail;
    if chunks == [] {
      EmptyFrame();
    } else {
      var n := |chunks| - 1;
      var init, last := chunks[..n], chunks[n];
      ChunkingIsInvisible(init);
      forall k | 0 <= k < n ensures PieceFits(chunks, k) <==> PieceFits(init, k) {
        assert chunks[..k] == init[..k];
      }
      assert FitsCap(chunks) <==> FitsCap(init) && PieceFits(chunks, n);
      if FitsCap(init) {
        SplitPrefix(Concat(init), last);
        var before, now := Lines(Concat(init)), Lines(Tail(Concat(init)) + last);
        StrippedConcat(before, now);
      }
    }
  }

  lemma SameStreamSameLines(chunks: seq<string>, other: seq<string>)
    requires Concat(chunks) == Concat(other) && FitsCap(chunks) && FitsCap(other)
    ensures FeedAll(chunks) == FeedAll(other)
  {
    ChunkingIsInvisible(chunks);
    ChunkingIsInvisible(other);
  }

  /** The cap bounds the buffer, not a line: a stream that passes in two chunks ends the CLI when
      both arrive in one. */
  lemma CapDependsOnTheCut(a: string, b: string)
    requires WithinCap(a) && WithinCap(Tail(a) + b) && !WithinCap(a + b)
    ensures FeedAll([a, b]).overflows == 0 && FeedAll([a + b]).overflows == 1
    ensures FeedAll([a, b]).handled == Stripped(Lines(a + b)) && FeedAll([a + b]).handled == []
  {
    hide WithinCap, Stripped, Lines, Tail;
    var two, one := [a, b], [a + b];
    assert two[..1] == [a] && [a][..0] == [] && one[..0] == [] && "" + a == a && "" + (a + b) == a + b;
    assert Concat([a]) == Concat([]) + a;
    assert Concat(two) == Concat(two[..1]) + b;
    EmptyFrame();
    assert PieceFits(two, 0) && PieceFits(two, 1);
    ChunkingIsInvisible(two);
    assert FeedAll(one) == Feed(FeedAll([]), a + b);
  }

  // ---------- Two such chunks ----------

  function Blanks(n: nat): string { if n == 0 then "" else "\n" + Blanks(n - 1) }

  function Empties(n: nat): seq<string> { if n == 0 then [] else [""] + Empties(n - 1) }

  lemma OneBlankOff(rest: string)
    ensures Lines("\n" + rest) == [""] + Lines(rest) && Tail("\n" + rest) == Tail(rest)
    ensures Utf8Length("\n" + rest) == 1 + Utf8Length(rest)
  {
    var s := "\n" + rest;
    assert s[0] == '\n' && s[..0] == "" && s[1..] == rest;
    NewlineIsFirst(s, 0);
    hide NewlineAt;
    OneLineOff(s);
  }

  lemma {:induction false} BlanksMeasured(n: nat)
    ensures Utf8Length(Blanks(n)) == n && Tail(Blanks(n)) == "" && Lines(Blanks(n)) == Empties(n)
  {
    hide Lines, Tail, Utf8Length, NewlineAt;
    if n == 0 {
      NothingMeasured();
    } else {
      BlanksMeasured(n - 1);
      OneBlankOff(Blanks(n - 1));
    }
  }

  lemma NothingMeasured()
    ensures Utf8Length("") == 0 && Tail("") == "" && Lines("") == []
  {}

  lemma {:induction false} EmptiesStripped(n: nat)
    ensures Stripped(Empties(n)) == Empties(n) && |Empties(n)| == n && forall l <- Empties(n) :: l == ""
  {
    if n > 0 {
      EmptiesStripped(n - 1);
      assert Empties(n)[1..] == Empties(n - 1);
    }
  }

  /** The cap in empty lines, and one more: the lines are as short as can be, and only the cut decides. */
  lemma ShortLinesCanOverflow()
    ensures var a, b := Blanks(MAX_STDOUT_BUFFER_BYTES), Blanks(1);
            && (forall l <- Lines(a + b) :: l == "")
            && FeedAll([a, b]).overflows == 0 && FeedAll([a + b]).overflows == 1
            && |FeedAll([a, b]).handled| == MAX_STDOUT_BUFFER_BYTES + 1 && FeedAll([a + b]).handled == []
  {
    var n := MAX_STDOUT_BUFFER_BYTES;
    hide Lines, Utf8Length, Tail, FeedAll, Blanks, Empties, Stripped;
    BlanksMeasured(n);
    BlanksMeasured(1);
    BlanksMeasured(n + 1);
    BlanksJoin(n);
    assert "" + Blanks(1) == Blanks(1);
    CapDependsOnTheCut(Blanks(n), Blanks(1));
    EmptiesStripped(n + 1);
  }

  lemma {:induction false} BlanksJoin(n: nat)
    ensures Blanks(n) + Blanks(1) == Blanks(n + 1)
  {
    assert Blanks(1) == "\n" + Blanks(0) == "\n";
    if n > 0 {
      BlanksJoin(n - 1);
      assert "\n" + Blanks(n - 1) + "\n" == "\n" + (Blanks(n - 1) + "\n");
    }
  }
}
