/** The bounded tail of a command's output (crates/roost-agent-tools/src/bash_capture.rs). */
module BashCapture {

  import opened Basics

  const OUTPUT_LIMIT := 50 * 1024

  /** The bytes in memory and, once there is one, the bytes of the spill file. */
  datatype Capture = Capture(retained: seq<Byte>, spill: Option<seq<Byte>>)

  const EMPTY := Capture([], None)

  function Spilled(c: Capture): seq<Byte> {
    if c.spill.None? then [] else c.spill.value
  }

  function Concat(chunks: seq<seq<Byte>>): seq<Byte> {
    if chunks == [] then [] else Concat(chunks[..|chunks| - 1]) + chunks[|chunks| - 1]
  }

  /** The capture of `all` the output, said outright: its last bytes in memory, the rest spilled. */
  ghost predicate Captures(c: Capture, all: seq<Byte>) {
    && Spilled(c) + c.retained == all
    && |c.retained| == (if |all| <= OUTPUT_LIMIT then |all| else OUTPUT_LIMIT)
    && (c.spill.Some? <==> |all| > OUTPUT_LIMIT)
  }

  /** One push. */
  function Push(c: Capture, chunk: seq<Byte>): Capture {
    var excess := if |c.retained| + |chunk| > OUTPUT_LIMIT then |c.retained| + |chunk| - OUTPUT_LIMIT else 0;
    if excess == 0 then c.(retained := c.retained + chunk)
    else
      var oldExcess := if excess < |c.retained| then excess else |c.retained|;
      var chunkExcess := excess - oldExcess;
      AppendSpill(AppendSpill(c, c.retained[..oldExcess]), chunk[..chunkExcess]).(retained :=
        c.retained[oldExcess..] + chunk[chunkExcess..])
  }

  /** An empty append does not create the file. */
  function AppendSpill(c: Capture, bytes: seq<Byte>): Capture {
    if bytes == [] then c else c.(spill := Some(Spilled(c) + bytes))
  }

  function PushAll(chunks: seq<seq<Byte>>): Capture {
    if chunks == [] then EMPTY else Push(PushAll(chunks[..|chunks| - 1]), chunks[|chunks| - 1])
  }

  /** Moving the oldest bytes behind the spill keeps all bytes in order. */
  lemma MovesInOrder(spill: seq<Byte>, retained: seq<Byte>, chunk: seq<Byte>, a: nat, b: nat)
    requires a <= |retained| && b <= |chunk| && (b > 0 ==> a == |retained|)
    ensures (spill + retained[..a] + chunk[..b]) + (retained[a..] + chunk[b..]) == (spill + retained) + chunk
  {
    var moved := spill + retained[..a];
    assert retained == retained[..a] + retained[a..];
    if b == 0 {
      assert chunk[..b] == [] && chunk[b..] == chunk && moved + chunk[..b] == moved;
      assert moved + retained[a..] == spill + retained;
    } else {
      assert retained[..a] == retained && retained[a..] == [];
      assert [] + chunk[b..] == chunk[b..] && chunk[..b] + chunk[b..] == chunk;
    }
  }

  lemma SpillsBoth(c: Capture, first: seq<Byte>, second: seq<Byte>)
    ensures var d := AppendSpill(AppendSpill(c, first), second);
      && Spilled(d) == Spilled(c) + first + second
      && (d.spill.Some? <==> c.spill.Some? || first != [] || second != [])
  {
  }

  lemma PushCaptures(c: Capture, all: seq<Byte>, chunk: seq<Byte>)
    requires Captures(c, all)
    ensures Captures(Push(c, chunk), all + chunk)
  {
    var n := |c.retained|;
    var excess := if n + |chunk| > OUTPUT_LIMIT then n + |chunk| - OUTPUT_LIMIT else 0;
    if excess == 0 {
      assert Spilled(c) + (c.retained + chunk) == all + chunk;
    } else {
      var fromRetained := if excess < n then excess else n;
      var fromChunk := excess - fromRetained;
      SpillsBoth(c, c.retained[..fromRetained], chunk[..fromChunk]);
      MovesInOrder(Spilled(c), c.retained, chunk, fromRetained, fromChunk);
    }
  }

  /** After any pushes nothing is lost: the spill, then the memory, are all of the output in order. */
  lemma {:induction false} NothingIsLost(chunks: seq<seq<Byte>>)
    ensures Captures(PushAll(chunks), Concat(chunks))
  {
    if chunks != [] {
      NothingIsLost(chunks[..|chunks| - 1]);
      PushCaptures(PushAll(chunks[..|chunks| - 1]), Concat(chunks[..|chunks| - 1]), chunks[|chunks| - 1]);
    }
  }

  class Buffer {
    var retained: seq<Byte>
    var spill: Option<seq<Byte>>

    ghost function Now(): Capture
      reads this
    {
      Capture(retained, spill)
    }

    constructor ()
      ensures Now() == EMPTY
    {
      retained, spill := [], None;
    }

    method Append(bytes: seq<Byte>)
      modifies this`spill
      ensures Now() == AppendSpill(old(Now()), bytes)
    {
      if bytes == [] { return; }
      if spill.None? { spill := Some([]); }
      spill := Some(spill.value + bytes);
    }

    /** Takes one chunk of output; what no longer fits in memory goes to the file, oldest first. */
    method PushChunk(chunk: seq<Byte>)
      modifies this
      ensures Now() == Push(old(Now()), chunk)
    {
      var excess := if |retained| + |chunk| > OUTPUT_LIMIT then |retained| + |chunk| - OUTPUT_LIMIT else 0;
      if excess == 0 {
        retained := retained + chunk;
        return;
      }
      var oldExcess := if excess < |retained| then excess else |retained|;
      Append(retained[..oldExcess]);
      retained := retained[oldExcess..];
      var chunkExcess := excess - oldExcess;
      Append(chunk[..chunkExcess]);
      retained := retained + chunk[chunkExcess..];
    }
  }

}
