// The decoded source as the reader sees it (main.go, `streamHandle`): a
// stream of lines read one at a time, and a `reset` function that returns the
// stream to its start. Opening the file, detecting its format and building a
// gzip, xz or lz4 decoder are not part of this model; their outcome is the
// sequence of lines the decoded file holds. Standard input cannot be rewound:
// its `reset` is a function that does nothing.
module LineSource {

  class LineStream {
    /** The lines of the decoded source, already split. */
    const content: seq<string>
    /** Whether `reset` rewinds (a file) or does nothing (standard input). */
    const seekable: bool
    /** How many lines have been read since the last rewind. */
    var pos: nat

    ghost predicate Valid()
      reads this
    {
      pos <= |content|
    }

    constructor (content: seq<string>, seekable: bool)
      ensures Valid()
      ensures this.content == content && this.seekable == seekable && pos == 0
    {
      this.content := content;
      this.seekable := seekable;
      pos := 0;
    }

    /** One `Scan`: the next line, or false at the end of the input. */
    method Scan() returns (more: bool, line: string)
      requires Valid()
      modifies this`pos
      ensures Valid()
      ensures more <==> old(pos) < |content|
      ensures more ==> line == content[old(pos)] && pos == old(pos) + 1
      ensures !more ==> pos == old(pos)
    {
      more := pos < |content|;
      if more {
        line := content[pos];
        pos := pos + 1;
      } else {
        line := "";
      }
    }

    /** `reset`: a file is sought back to its start (and its decoder
        re-initialised); standard input is left where it is. */
    method Reset()
      requires Valid()
      modifies this`pos
      ensures Valid()
      ensures pos == if seekable then 0 else old(pos)
    {
      if seekable {
        pos := 0;
      }
    }
  }
}
