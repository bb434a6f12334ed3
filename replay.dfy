// The whole pipeline with one worker (main.go, `main`): the limiter's divider
// from the configured rate, the reader, the worker, and the main loop that
// receives one completion token per requested line before it exits.
//
// The three tasks run concurrently in the program. The model runs them one
// after the other: the reader to the end, then the worker until the channel
// is drained, then the main loop. This is the schedule in which the reader
// has overwritten `lines` before the main loop first tests it. Other
// schedules end differently in two cases: with K <= 0 the main loop can see
// the unchanged K, exit at once and end the process before anything (or
// everything) is printed; with K > M and no cycling it can test its counter
// against the unchanged K after M tokens and block forever.
module Replay {
  import opened RateLadder
  import opened Reader
  import opened WorkerPool

  /** One run of the program with a single worker. `fileLines` are the decoded
      lines of the named file, `stdinLines` those of standard input. Returns
      what was printed, the counts at which the worker waited, and the number
      of completion tokens the main loop received before exiting. */
  method ReplayOneWorker(rate: int, dataFile: string, fileLines: seq<string>,
                         stdinLines: seq<string>, cycle: bool, lines: int)
    returns (printed: seq<string>, waits: seq<nat>, received: int)
    requires dataFile != "" && cycle ==> |fileLines| >= 1 && lines >= 1
    ensures printed == Dispatched(if dataFile == "" then stdinLines else fileLines,
                                  lines, cycle && dataFile != "")
    ensures waits == WaitPoints(0, |printed|, RateDivider(rate))
    ensures received == |printed|
  {
    var divider := RateDivider(rate);
    var dispatcher := new Dispatcher(lines, cycle);
    var wait := new CompletionChannel();
    var worker := new Worker(divider, wait);

    dispatcher.Read(dataFile, fileLines, stdinLines);
    worker.Run(dispatcher);

    // for i := int64(0); i < *lines; i++ { <-wait }
    var i := 0;
    while i < dispatcher.lines
      invariant 0 <= i <= dispatcher.lines == |worker.printed|
      invariant wait.pending == dispatcher.lines - i
      modifies wait
    {
      wait.Receive();
      i := i + 1;
    }
    printed, waits, received := worker.printed, worker.waits, i;
  }

  /** A three-line source with ten lines requested: cycling prints the three
      lines over and over, cut off after ten; without cycling the three lines
      are printed once. With a rate of 10000 (divider 7) a worker printing
      ten lines calls Wait while handling its first and its eighth line. */
  lemma ThreeLinesTenRequested()
    ensures Dispatched(["a", "b", "c"], 10, true)
         == ["a", "b", "c", "a", "b", "c", "a", "b", "c", "a"]
    ensures Dispatched(["a", "b", "c"], 10, false) == ["a", "b", "c"]
    ensures WaitPoints(0, 10, RateDivider(10000)) == [0, 7]
  {
    var src := ["a", "b", "c"];
    var r := Dispatched(src, 10, true);
    forall i | 0 <= i < 10
      ensures r[i] == src[i % 3]
    {
      DispatchedWithCycling(src, 10, i);
    }
  }
}
