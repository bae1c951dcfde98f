/** The reading loop of `runReadableProcess` (`src/system.c`). */
module Subprocess {
  import opened Toolbox

  /** The reading end of a pipe: `pending` is what the child has still to deliver. The way
      `Read` splits it into chunks is left to the operating system. */
  class Pipe {
    var pending: string

    constructor (output: string)
      ensures pending == output
    {
      pending := output;
    }

    /** One `read()`: some bytes if there are any, none at the end of the stream. */
    method Read(buffer: array<char>, at: nat, count: nat) returns (n: nat)
      requires at + count <= buffer.Length
      modifies this, buffer
      ensures n <= count && n <= |old(pending)|
      ensures n == 0 <==> count == 0 || old(pending) == ""
      ensures pending == old(pending)[n..]
      ensures buffer[..] == old(buffer[..at]) + old(pending)[..n] + old(buffer[at + n..])
    {
      if count == 0 || pending == "" {
        n := 0;
      } else {
        n :| 1 <= n <= count && n <= |pending|;
        forall i | 0 <= i < n {
          buffer[at + i] := pending[i];
        }
        pending := pending[n..];
      }
    }
  }

  /** What a bounded buffer keeps of a stream. */
  function Kept(output: string, capacity: nat): string {
    output[..Min(capacity, |output|)]
  }

  /** Reads the output of a child into a buffer: whatever the chunks are, the buffer receives
      the beginning of the stream, as much as fits, and nothing else is touched. */
  method RunReadableProcess(output: string, buffer: array<char>, capacity: nat) returns (nbBytesRead: nat)
    requires capacity <= buffer.Length
    modifies buffer
    ensures nbBytesRead == |Kept(output, capacity)|
    ensures buffer[..nbBytesRead] == Kept(output, capacity)
    ensures buffer[nbBytesRead..] == old(buffer[..])[nbBytesRead..]
  {
    var pipe := new Pipe(output);
    nbBytesRead := 0;
    while nbBytesRead < capacity
      invariant fresh(pipe)
      invariant nbBytesRead <= capacity && nbBytesRead <= |output|
      invariant pipe.pending == output[nbBytesRead..]
      invariant buffer[..nbBytesRead] == output[..nbBytesRead]
      invariant buffer[nbBytesRead..] == old(buffer[..])[nbBytesRead..]
      decreases capacity - nbBytesRead
    {
      ghost var before := buffer[..];
      var current := pipe.Read(buffer, nbBytesRead, capacity - nbBytesRead);
      if current == 0 {
        break;
      }
      var next := nbBytesRead + current;
      assert buffer[..next] == output[..next];
      assert buffer[next..] == before[nbBytesRead..][current..];
      nbBytesRead := next;
    }
  }

  /** A bounded buffer holds the whole stream exactly when the stream fits. */
  lemma KeptIsComplete(output: string, capacity: nat)
    ensures Kept(output, capacity) == output <==> |output| <= capacity
  {
  }
}
