/**
 * The two streams the render loop talks to. The CSV reader is modelled by
 * the outcomes its successive `Read` calls give; the output writer by the
 * bytes written to it so far.
 */
module Streams {
  import opened Values

  /**
   * A CSV reader over a finite input: each `Read` gives the next outcome and
   * consumes it, and once the input is exhausted every `Read` gives
   * end of input. The input cannot be rewound.
   */
  class RecordReader {
    /** The outcomes of the reads still to come. */
    var pending: seq<ReadResult>

    constructor (outcomes: seq<ReadResult>)
      ensures pending == outcomes
    {
      pending := outcomes;
    }

    method Read() returns (r: ReadResult)
      modifies this
      ensures old(pending) == [] ==> r == EndOfFile && pending == []
      ensures old(pending) != [] ==> r == old(pending)[0] && pending == old(pending)[1..]
    {
      if pending == [] {
        r := EndOfFile;
      } else {
        r := pending[0];
        pending := pending[1..];
      }
    }
  }

  /** An output stream: bytes are only ever appended, never taken back. */
  class Writer {
    var written: seq<Byte>

    constructor ()
      ensures written == []
    {
      written := [];
    }

    method Write(p: seq<Byte>)
      modifies this
      ensures written == old(written) + p
    {
      written := written + p;
    }
  }
}
