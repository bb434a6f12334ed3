# normcat dispatch core in Dafny

normcat replays the lines of a file, or of standard input, to standard output.
It prints at a configured mean rate with normally distributed jitter, and it can
cycle the source until a requested number of lines has been printed. This
project models the sequential logic of `main.go`:

- **Rate ladder** (`rate_ladder.dfy`, module `RateLadder`). The configured rate
  selects a sampling divider D from {1, 3, 7, 11, 19, 41, 97}. The limiter is
  built with base rate `rate / D` (Go's truncating division) and burst
  `(rate / D) >> 1` (an arithmetic shift).
- **LZ4 matcher** (`lz4_magic.dfy`, module `Lz4Magic`). This is the predicate
  registered with the file-type detector. It is related to the little-endian
  encoding of the LZ4 frame magic number 0x184D2204.
- **Line source** (`line_source.dfy`, module `LineSource`). The decoded source
  is a class holding the line sequence and a read position. `Scan` reads the
  next line. `Reset` rewinds a file and does nothing on standard input.
- **Reader/cycler** (`reader.dfy`, module `Reader`). The class `Dispatcher`
  holds the dispatch channel as a FIFO sequence, the reader's `numMessages`,
  and the `lines` and `cycle` flags. `StreamHandle` models the stdin branch,
  which turns cycling off. `ReadLoop` is the labelled nested loop. Its inner
  `for in.Scan()` loop is the method `ScanPass`, and the labelled break is a
  return from it. `ReadLoop` is proved against the specification function
  `Dispatched`: the first min(M, K) lines without cycling, and
  `source[i mod M]` for i < K with cycling. Full passes, as `Repeat`, are
  proved equal to that round-robin sequence.
- **Worker** (`worker.dfy`, module `WorkerPool`). The class `Worker` holds its
  own count, what it printed, and the counts at which it called `limiter.Wait`.
  `Run` drains the channel. The function `WaitPoints` specifies where `Wait` is
  called, and lemmas prove the multiples-of-D, ceil(n / D) and first-line facts.
- **Single-worker run** (`replay.dfy`, module `Replay`). The reader, one worker
  and main's completion loop are composed. With one worker, the printed lines
  are exactly the dispatched lines in read order. The main loop receives exactly
  as many completion tokens as lines were printed.

## Model

| member | source | states |
|---|---|---|
| RateLadder.RateDivider | main.go:84-97 | the divider picked by the switch is at least 1 |
| RateLadder.DividerEnds | main.go:84-97 | rates below 5000 (zero and negative included) give D = 1, and only those; rates of at least 1000000 give 97 |
| RateLadder.DividerInLadder | main.go:65 | the divider is one of 1, 3, 7, 11, 19, 41, 97 (the initial value 1 or a case of the switch), and it is odd |
| RateLadder.DividerMonotone | main.go:84-97 | a higher rate never selects a smaller divider |
| RateLadder.DividerSmallAgainstRate | main.go:78-83 | wherever sampling is on (rate >= 5000), the divider is at most a thousandth of the rate |
| RateLadder.LimiterBase | main.go:102 | the base rate `rate / D`: D times the base rate is at most the rate and falls short of it by less than D |
| RateLadder.LimiterBurst | main.go:104 | the burst `(rate / D) >> 1`: twice the burst is the base rate or one less, and the burst is negative exactly when the rate is |
| RateLadder.GoQuotient | main.go:102 | Go's `/`: the magnitude of the quotient is the exact quotient's magnitude rounded down, and its sign is the product of the operands' signs |
| RateLadder.ShiftRightOne | main.go:104 | Go's `>> 1` on a signed int: the result r satisfies 2r <= x <= 2r + 1 (rounding toward minus infinity) |
| RateLadder.BaseIsFloorQuotient | main.go:102 | the base rate equals the floor quotient rate / D for every rate (D is 1 for negative rates), and equals the rate itself below 5000 |
| RateLadder.BaseRecoversRate | main.go:98-104 | for rate >= 0, base * D <= rate < base * D + D, and from 5000 up the lost remainder is under a thousandth of the rate |
| RateLadder.BasePositive | main.go:102 | a positive rate always gives a positive base rate |
| RateLadder.BurstIsHalfBase | main.go:104 | the burst is half the base rounded down; it is at least 1 exactly when the rate is at least 2 |
| Lz4Magic.IsLz4 | main.go:54-57 | `lz4Func` accepts a buffer iff it has at least four bytes and they are 04 22 4D 18 in that order |
| Lz4Magic.DecodeEncode | main.go:56 | decoding the little-endian encoding of a 32-bit number gives the number back |
| Lz4Magic.EncodeDecode | main.go:56 | encoding the number four bytes decode to gives the bytes back |
| Lz4Magic.MatcherIsMagicPrefix | main.go:54-57 | the matcher accepts a buffer iff it has at least 4 bytes and its first four are the little-endian encoding of 0x184D2204 |
| Lz4Magic.MatcherReadsMagicNumber | main.go:54-57 | the matcher accepts a buffer iff its first four bytes read little-endian as 0x184D2204 |
| Lz4Magic.MatcherLooksAtFourBytes | main.go:55-56 | buffers of 3 bytes or fewer are rejected; bytes after the fourth never change the verdict |
| LineSource.LineStream.Scan | main.go:148 | returns the next line and advances by one, or reports the end of input and stays put |
| LineSource.LineStream.Reset | main.go:161 | a file is rewound to its first line; on standard input reset changes nothing |
| Reader.Dispatcher.StreamHandle | main.go:203-208 | with no file named, the source is standard input, it cannot be rewound, and cycling is turned off; otherwise the file's lines, rewindable, with the flag unchanged |
| Reader.Dispatcher.ScanPass | main.go:146-154 | one scanner pass pushes the source lines from the current position on, in order, counting each; it returns true exactly when the count reached `lines`, and otherwise it has hit the end of input with the count still short |
| Reader.Dispatcher.ReadLoop | main.go:144-163 | the channel ends up holding exactly Dispatched(source, K, cycle); numMessages counts every pushed line; on exit lines == numMessages, and lines is unchanged when cycling |
| Reader.Dispatcher.Read | main.go:142-163 | the reader goroutine dispatches Dispatched(stdin or file lines, K, cycle and a file was named) and leaves lines == numMessages |
| Reader.Dispatcher.Receive | main.go:182 | a worker takes the oldest line off the channel, and only when there is one |
| Reader.RepeatIsCycled | main.go:160-161 | p full passes through the source (each ended by a reset to the start) followed by the first `pos` lines of one more pass are exactly the round-robin sequence of that length, line i being source[i mod M] |
| Reader.DispatchedWithoutCycling | main.go:148-158 | without cycling, the dispatched lines are the first min(M, K) source lines in order for K >= 1, and the whole source for K <= 0 |
| Reader.DispatchedWithCycling | main.go:144-163 | with cycling (M >= 1, K >= 1), exactly K lines are dispatched, line i is source[i mod M], and lines repeat with period M |
| Reader.CyclingNeededOnlyForShortSources | main.go:148-153 | when the source has at least K lines, cycling on or off dispatches the same first K lines |
| WorkerPool.CompletionChannel.Send | main.go:184 | sending a completion token adds exactly one pending token |
| WorkerPool.CompletionChannel.Receive | main.go:167 | receiving a token removes exactly one |
| WorkerPool.Worker.Run | main.go:177-190 | the worker prints every dequeued line once, in order; sends one token per line; its count grows by the number of lines; Wait is called at exactly WaitPoints(old count, n, D) |
| WorkerPool.WaitPointsAreMultiples | main.go:185-188 | Wait is called at a count x iff x lies in the handled range and x mod D == 0; the calls are in increasing order |
| WorkerPool.WaitCountIsCeiling | main.go:185-188 | a fresh worker handling n lines waits c times with D(c - 1) < n <= Dc, i.e. ceil(n / D) = (n + D - 1) / D |
| WorkerPool.FirstLineWaits | main.go:180-187 | the first line a fresh worker handles always waits, and with D = 1 every line waits |
| Replay.ReplayOneWorker | main.go:68-168 | with one worker the printed lines are exactly Dispatched(source, K, effective cycle), in read order; waits happen at WaitPoints(0, printed, RateDivider(rate)); the main loop receives exactly as many tokens as lines were printed |
| Replay.ThreeLinesTenRequested | main.go:144-163 | 3 source lines and 10 requested: cycling prints a b c a b c a b c a, no cycling prints a b c; at rate 10000 a worker waits at counts 0 and 7 |

### Behaviour of the code worth knowing

- An empty source with cycling on never ends the reader: the loop at
  main.go:144-163 scans, finds nothing, resets and scans again, and nothing
  in it stops that case. `ReadLoop` and `Read` therefore require at least one
  line and K >= 1 when cycling, and claim nothing outside that.
- The jitter task replaces a redrawn limit by 1 only when it is strictly
  negative (main.go:119-121), so a redrawn limit in [0, 1) is kept. This is
  noted in `rate_ladder.dfy` and is not modelled, because the redraw uses
  floating point.
- `BurstIsHalfBase` shows that rates 0 and 1 build the limiter with a burst of
  0 (main.go:104). How the limiter library treats a zero burst is not part of
  this model.

## Left out

- Command-line parsing, shorthand flags, help text, version printing and the
  logging switch (flags.go). These are glue over Go's `flag` package.
- Opening the file, reading the 261-byte header, format detection, seeking
  and building the gzip, xz and lz4 readers (main.go:211-281). These are I/O
  and foreign libraries. The model takes the decoded lines as the sequence
  `fileLines`: the lines the scanner yields before it first stops, at the end
  of the input or at the first read, decode or line-length error. Only a
  failure to open the file is fatal (main.go:212-215), and that is not
  modelled. A failure to build the gzip or xz reader is only logged
  (main.go:277-279), and the reader left behind fails on its first read;
  that is not modelled either.
- Line splitting by `bufio.Scanner`, including its failure on over-long lines.
  The source is taken as already split into lines. The reader never asks the
  scanner for its error (main.go:148-161). A read, decode or over-long-line
  error therefore ends a pass exactly as the end of input does. With cycling
  the reader rewinds and replays the part it could read. Without cycling it
  lowers `lines` to the count read and the run ends normally. The model
  covers this through the meaning of `fileLines` above.
- Reader.Dispatcher.StreamHandle: the file branch assumes a seekable regular
  file and ensures `s.seekable` for every named file. The source ignores the
  result of every `Seek` (main.go:234, and the reset closures at main.go:241,
  251, 259 and 275). For a named file that cannot seek, such as a pipe given
  by path, the header bytes already read (at most 261) are lost and `reset`
  does nothing; the model does not capture that case.
- The jitter task (main.go:110-132). It uses a ticker, random normal draws and
  float64 arithmetic on `rate.Limit`, and the jitter division at main.go:103 is
  a float operation. It also reads `numMessages` without synchronisation.
- The token bucket inside `rate.Limiter` (`NewLimiter`, `Wait`, `SetLimit`).
  It belongs to an external library. The worker logs its calls to `Wait`.
- Goroutines, channel capacities (64 Ki and 60 Ki), blocking and backpressure,
  `sync.WaitGroup`, and several workers printing in an unspecified order.
  Main reads `*lines` while the reader may overwrite it, which is a race. The
  model runs reader, worker and main loop one after the other.
- `chanBuffer` (buffer_size.go, buffer_size_lowmem.go). main.go never reads it.
- version-generate/main.go: a build-time call into an external generator.
- Reader.Dispatcher.ReadLoop: termination is not claimed, and the method is not
  specified, when cycling with an empty source or with K <= 0. With K <= 0 the
  64-bit count would only reach K after wrapping around. 64-bit wrap-around of
  `numMessages` is not modelled otherwise; it cannot occur when K >= 1 because
  the count never exceeds K.
- WorkerPool.Worker.Run: drains the channel and returns. The source's worker
  blocks forever on the never-closed channel, and the process exits from main.
  Wrap-around of the worker's int count after 2^63 lines is not modelled.
- Replay.ReplayOneWorker: the contract describes only the schedule in which
  the reader finishes, overwriting `lines`, before the main loop first tests
  it. With K <= 0 the main loop (main.go:166) may instead see the unchanged K,
  exit at once and end the process with little or nothing printed, where the
  model prints the whole source. With K > M and no cycling it may compare its
  counter against the unchanged K after M tokens and block forever at
  main.go:167, where the model ends after M tokens.
- RateLadder.LimiterBase: the conversion of the integer quotient to
  `rate.Limit` (a float64, main.go:102) is not modelled; it is exact only
  while the quotient's magnitude is at most 2^53.
