// The reader/cycler (main.go, the goroutine that calls `streamHandle` and then
// runs the loop labelled `readLoop`) and the stdin branch of `streamHandle`.
//
// The dispatch channel is modelled as an unbounded FIFO queue: its capacity
// (64 Ki lines) only makes the reader block, which does not change what is
// dispatched or in which order.
module Reader {
  import opened LineSource
  import opened Arithmetic

  // ---------------------------------------------------------------------
  // What the reader dispatches

  /** `k` lines taken round-robin from a non-empty source: line `i` is source
      line `i mod |src|`. */
  function Cycled(src: seq<string>, k: nat): (r: seq<string>)
    requires |src| >= 1
  {
    seq(k, i requires 0 <= i < k => src[i % |src|])
  }

  /** The lines the reader dispatches for a source, a requested count `k`
      and the cycling flag: `k` lines round-robin when cycling; otherwise the
      first `k` lines, or the whole source when it is shorter than `k` or
      when `k` is not positive (the count is tested for equality after each
      increment, so a count below one never stops the loop). */
  function Dispatched(src: seq<string>, k: int, cycle: bool): seq<string>
    requires cycle ==> |src| >= 1 && k >= 1
  {
    if cycle then Cycled(src, k)
    else if 1 <= k <= |src| then src[..k]
    else src
  }

  /** The source read `passes` times from start to end: what a cycling reader
      has dispatched after that many complete passes. */
  function Repeat(src: seq<string>, passes: nat): seq<string>
  {
    if passes == 0 then [] else Repeat(src, passes - 1) + src
  }

  lemma {:induction false} RepeatAt(src: seq<string>, passes: nat, i: nat)
    requires |src| >= 1
    ensures |Repeat(src, passes)| == passes * |src|
    ensures i < passes * |src| ==> Repeat(src, passes)[i] == src[i % |src|]
  {
    var m := |src|;
    if passes > 0 {
      RepeatAt(src, passes - 1, i);
      assert passes * m == (passes - 1) * m + m;
      if (passes - 1) * m <= i < passes * m {
        ModOfPasses(passes - 1, m, i - (passes - 1) * m);
      }
    }
  }

  /** Complete passes followed by part of one more are the round-robin
      sequence of the same length. */
  lemma RepeatIsCycled(src: seq<string>, passes: nat, pos: nat)
    requires 1 <= |src| && pos <= |src|
    ensures Repeat(src, passes) + src[..pos] == Cycled(src, |Repeat(src, passes)| + pos)
  {
    var m := |src|;
    var whole := Repeat(src, passes);
    RepeatAt(src, passes, 0);
    var n := |whole| + pos;
    forall i | 0 <= i < n
      ensures (whole + src[..pos])[i] == src[i % m]
    {
      RepeatAt(src, passes, i);
      if i >= |whole| {
        ModOfPasses(passes, m, i - |whole|);
      }
    }
  }

  // ---------------------------------------------------------------------
  // Properties of what is dispatched

  /** Without cycling, the dispatched lines are the first min(M, K) source
      lines for K >= 1, and the whole source for K <= 0. */
  lemma DispatchedWithoutCycling(src: seq<string>, k: int)
    ensures var r := Dispatched(src, k, false);
      && |r| == (if 1 <= k <= |src| then k else |src|)
      && r == src[..|r|]
  {
  }

  /** With cycling, exactly K lines are dispatched, line i is source line
      i mod M, and the dispatched lines repeat with period M. */
  lemma {:induction false} DispatchedWithCycling(src: seq<string>, k: int, i: nat)
    requires |src| >= 1 && k >= 1
    ensures |Dispatched(src, k, true)| == k
    ensures i < k ==> Dispatched(src, k, true)[i] == src[i % |src|]
    ensures i + |src| < k ==> Dispatched(src, k, true)[i + |src|] == Dispatched(src, k, true)[i]
  {
    var m := |src|;
    if i + m < k {
      var q, p := i / m, i % m;
      assert i + m == (q + 1) * m + p;
      ModOfPasses(q + 1, m, p);
    }
  }

  /** A source that already holds the requested number of lines is
      dispatched the same way whether or not cycling is on. */
  lemma CyclingNeededOnlyForShortSources(src: seq<string>, k: int)
    requires 1 <= k <= |src|
    ensures Dispatched(src, k, true) == Dispatched(src, k, false) == src[..k]
  {
    forall i | 0 <= i < k
      ensures Dispatched(src, k, true)[i] == src[i]
    {
      ModOfPasses(0, |src|, i);
    }
  }

  // ---------------------------------------------------------------------
  // The reader

  class Dispatcher {
    /** The dispatch channel, oldest line first. */
    var bus: seq<string>
    /** `numMessages`: lines pushed onto the channel so far. */
    var numMessages: int
    /** The `lines` flag: the requested count, overwritten by the reader. */
    var lines: int
    /** The `cycle` flag. */
    var cycle: bool

    constructor (lines: int, cycle: bool)
      ensures bus == [] && numMessages == 0
      ensures this.lines == lines && this.cycle == cycle
    {
      bus := [];
      numMessages := 0;
      this.lines := lines;
      this.cycle := cycle;
    }

    /** `streamHandle`: standard input when no file is named, which also
        turns cycling off; otherwise the named file's decoded lines, with a
        rewinding `reset`. */
    method StreamHandle(dataFile: string, fileLines: seq<string>, stdinLines: seq<string>)
      returns (s: LineStream)
      modifies this`cycle
      ensures fresh(s) && s.Valid() && s.pos == 0
      ensures dataFile == "" ==> s.content == stdinLines && !s.seekable && !cycle
      ensures dataFile != "" ==> s.content == fileLines && s.seekable && cycle == old(cycle)
    {
      if dataFile == "" {
        cycle := false;
        s := new LineStream(stdinLines, false);
        return;
      }
      s := new LineStream(fileLines, true);
    }

    /** One pass of the scanner (`for in.Scan() { ... }`): push every line
        from the current position on and count it, until the end of the input
        or until the count equals `lines`, whichever comes first. */
    method ScanPass(s: LineStream) returns (reached: bool)
      requires s.Valid() && numMessages == |bus|
      requires lines < 1 || numMessages < lines
      modifies this`bus, this`numMessages, s`pos
      ensures s.Valid() && old(s.pos) <= s.pos
      ensures numMessages == |bus| && bus == old(bus) + s.content[old(s.pos)..s.pos]
      ensures reached ==> numMessages == lines && old(s.pos) < s.pos
      ensures !reached ==> s.pos == |s.content| && (lines < 1 || numMessages < lines)
    {
      ghost var start := s.pos;
      while true
        invariant s.Valid() && start <= s.pos
        invariant numMessages == |bus| && bus == old(bus) + s.content[start..s.pos]
        invariant lines < 1 || numMessages < lines
        decreases |s.content| - s.pos
      {
        var more, line := s.Scan();
        if !more {
          return false;
        }
        assert s.content[start..s.pos] == s.content[start..s.pos - 1] + [line];
        bus := bus + [line];
        numMessages := numMessages + 1;
        if numMessages == lines {
          return true;
        }
      }
    }

    /** The loop labelled `readLoop`: scan the stream, stopping as soon as
        the count equals `lines`; at the end of the input either give up and
        lower `lines` to the count (no cycling) or rewind and scan again. */
    method ReadLoop(s: LineStream)
      requires s.Valid() && s.pos == 0
      requires bus == [] && numMessages == 0
      requires cycle ==> s.seekable && |s.content| >= 1 && lines >= 1
      modifies this`bus, this`numMessages, this`lines, s`pos
      ensures bus == Dispatched(s.content, old(lines), cycle)
      ensures numMessages == |bus| && lines == numMessages
      ensures cycle ==> lines == old(lines)
    {
      ghost var src := s.content;
      ghost var passes: nat := 0;
      while true
        invariant s.Valid() && s.content == src && s.pos == 0 && lines == old(lines)
        invariant numMessages == |bus| && bus == Repeat(src, passes)
        invariant lines < 1 || numMessages < lines
        invariant !cycle ==> passes == 0
        decreases if cycle then lines - numMessages else 0
      {
        var reached := ScanPass(s);
        assert s.content[0..s.pos] == s.content[..s.pos];
        if reached {
          if cycle {
            RepeatIsCycled(src, passes, s.pos);
          } else {
            assert bus == src[..s.pos];
          }
          return;
        }
        assert src[..s.pos] == src;
        if !cycle {
          lines := numMessages;
          return;
        }
        s.Reset();
        passes := passes + 1;
      }
    }

    /** The goroutine body: open the stream, then run the read loop. */
    method Read(dataFile: string, fileLines: seq<string>, stdinLines: seq<string>)
      requires bus == [] && numMessages == 0
      requires dataFile != "" && cycle ==> |fileLines| >= 1 && lines >= 1
      modifies this
      ensures cycle == (old(cycle) && dataFile != "")
      ensures bus == Dispatched(if dataFile == "" then stdinLines else fileLines, old(lines), cycle)
      ensures numMessages == |bus| && lines == numMessages
    {
      var s := StreamHandle(dataFile, fileLines, stdinLines);
      ReadLoop(s);
    }

    /** A worker's receive: the oldest line on the channel, if there is one. */
    method Receive() returns (ok: bool, msg: string)
      modifies this`bus
      ensures ok <==> old(bus) != []
      ensures ok ==> msg == old(bus)[0] && bus == old(bus)[1..]
      ensures !ok ==> bus == old(bus)
    {
      ok := bus != [];
      if ok {
        msg := bus[0];
        bus := bus[1..];
      } else {
        msg := "";
      }
    }
  }
}
