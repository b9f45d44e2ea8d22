/** internal/platform/command: bounded output capture and the classification of a finished command. */
module Command {
  import opened Wrappers

  type Byte = bv8

  /** os/exec hands over output in non-empty pieces. */
  type Chunk = c: seq<Byte> | c != [] witness [0]

  const DEFAULT_OUTPUT_LIMIT: int := 64 * 1024

  datatype RunError = CommandTimeout | CommandFailed | OutputTruncated

  datatype CommandResult = CommandResult(stdout: seq<Byte>, stderr: seq<Byte>,
                                         stdoutTruncated: bool, stderrTruncated: bool)

  /**
   What one run of a command does. Starting it can fail, with no executable on the path, no process or no time left;
   a started one has output, in the pieces it is written, and an end.
   */
  datatype Process =
    | Unstarted(deadlineExceeded: bool)
    | Started(stdout: seq<Chunk>, stderr: seq<Chunk>, deadlineExceeded: bool, exitError: bool)

  function EffectiveOutputLimit(limit: int): (effective: int)
    ensures effective > 0
    ensures limit > 0 ==> effective == limit
    ensures limit <= 0 ==> effective == 65536
  {
    if limit <= 0 then DEFAULT_OUTPUT_LIMIT else limit
  }

  // ---------------------------------------------------------------- streams

  function Stream(chunks: seq<seq<Byte>>): seq<Byte>
  {
    if chunks == [] then [] else Stream(chunks[..|chunks| - 1]) + chunks[|chunks| - 1]
  }

  function Bound(limit: int): nat
  {
    if limit <= 0 then 0 else limit
  }

  /** The first min(total, bound) bytes of a stream. */
  function Clip(stream: seq<Byte>, limit: int): seq<Byte>
  {
    if |stream| <= Bound(limit) then stream else stream[..Bound(limit)]
  }

  /** A chunk is cut, or arrives when nothing more fits. */
  predicate Overflows(before: seq<Byte>, chunk: seq<Byte>, limit: int)
  {
    |before| >= Bound(limit) || |before| + |chunk| > Bound(limit)
  }

  predicate Overflowed(chunks: seq<seq<Byte>>, limit: int)
  {
    exists i | 0 <= i < |chunks| :: Overflows(Stream(chunks[..i]), chunks[i], limit)
  }

  class LimitedBuffer {
    const limit: int
    var buffer: seq<Byte>
    var truncated: bool
    ghost var written: seq<seq<Byte>>

    ghost predicate Valid()
      reads this
    {
      buffer == Clip(Stream(written), limit) &&
      (truncated <==> Overflowed(written, limit))
    }

    constructor (limit: int)
      ensures Valid() && this.limit == limit && written == [] && buffer == [] && !truncated
    {
      this.limit := limit;
      buffer, truncated, written := [], false, [];
    }

    /** Every byte is reported as written, whatever was kept. */
    method Write(p: seq<Byte>) returns (n: nat)
      requires Valid()
      modifies this
      ensures Valid() && n == |p| && written == old(written) + [p]
    {
      n := |p|;
      WriteExtends(written, p, limit);
      ClipExtends(Stream(written), p, limit);
      written := written + [p];
      if limit <= 0 {
        truncated := true;
        return;
      }
      var remaining := limit - |buffer|;
      if remaining <= 0 {
        truncated := true;
        return;
      }
      if |p| > remaining {
        buffer := buffer + p[..remaining];
        truncated := true;
        return;
      }
      buffer := buffer + p;
    }
  }

  lemma WriteExtends(written: seq<seq<Byte>>, p: seq<Byte>, limit: int)
    ensures Stream(written + [p]) == Stream(written) + p
    ensures Overflowed(written + [p], limit) <==> Overflowed(written, limit) || Overflows(Stream(written), p, limit)
  {
    var all := written + [p];
    assert all[..|written|] == written && all[|written|] == p;
    if i :| 0 <= i < |written| && Overflows(Stream(written[..i]), written[i], limit) {
      assert all[..i] == written[..i] && all[i] == written[i];
    }
    if i :| 0 <= i < |all| && Overflows(Stream(all[..i]), all[i], limit) {
      assert i < |written| ==> all[..i] == written[..i];
    }
  }

  lemma ClipExtends(s: seq<Byte>, p: seq<Byte>, limit: int)
    ensures |s| >= Bound(limit) ==> Clip(s + p, limit) == Clip(s, limit) && |Clip(s, limit)| == Bound(limit)
    ensures |s| < Bound(limit) < |s| + |p| ==> Clip(s + p, limit) == Clip(s, limit) + p[..Bound(limit) - |s|]
    ensures |s| + |p| <= Bound(limit) ==> Clip(s + p, limit) == Clip(s, limit) + p
    ensures |s| < Bound(limit) ==> |Clip(s, limit)| == |s|
  {
  }

  lemma {:induction false} StreamGrows(chunks: seq<seq<Byte>>, i: nat)
    requires i <= |chunks|
    ensures |Stream(chunks[..i])| <= |Stream(chunks)|
    decreases |chunks|
  {
    if i < |chunks| {
      var rest := chunks[..|chunks| - 1];
      assert rest[..i] == chunks[..i];
      StreamGrows(rest, i);
    } else {
      assert chunks[..i] == chunks;
    }
  }

  /**
   The truncation flag after any sequence of writes: the stream is longer than the bound, or an
   empty piece arrived when the buffer was already full.
   */
  lemma TruncatedIff(chunks: seq<seq<Byte>>, limit: int)
    ensures Overflowed(chunks, limit)
       <==> (|Stream(chunks)| > Bound(limit)
             || exists i | 0 <= i < |chunks| :: chunks[i] == [] && |Stream(chunks[..i])| >= Bound(limit))
  {
    if i :| 0 <= i < |chunks| && Overflows(Stream(chunks[..i]), chunks[i], limit) {
      assert chunks[..i + 1][..i] == chunks[..i];
      StreamGrows(chunks, i + 1);
      if |Stream(chunks)| <= Bound(limit) {
        assert chunks[i] == [] && |Stream(chunks[..i])| >= Bound(limit);
      }
    }
    if |Stream(chunks)| > Bound(limit) {
      OverflowHappens(chunks, limit);
    }
    if i :| 0 <= i < |chunks| && chunks[i] == [] && |Stream(chunks[..i])| >= Bound(limit) {
      assert Overflows(Stream(chunks[..i]), chunks[i], limit);
    }
  }

  lemma {:induction false} OverflowHappens(chunks: seq<seq<Byte>>, limit: int)
    requires |Stream(chunks)| > Bound(limit)
    ensures Overflowed(chunks, limit)
  {
    var last := |chunks| - 1;
    if |Stream(chunks[..last])| > Bound(limit) {
      OverflowHappens(chunks[..last], limit);
      var i :| 0 <= i < last && Overflows(Stream(chunks[..last][..i]), chunks[..last][i], limit);
      assert chunks[..last][..i] == chunks[..i];
    }
    assert |Stream(chunks[..last])| <= Bound(limit) ==> Overflows(Stream(chunks[..last]), chunks[last], limit);
  }

  // ---------------------------------------------------------------- a run

  predicate WithinLimit(chunks: seq<Chunk>, limit: int)
  {
    |Stream(chunks)| <= Bound(limit)
  }

  function Stdout(process: Process): seq<Chunk>
  {
    if process.Started? then process.stdout else []
  }

  function Stderr(process: Process): seq<Chunk>
  {
    if process.Started? then process.stderr else []
  }

  /** The verdict on a run, stated on the whole streams. */
  function RunVerdict(process: Process, limit: int): Option<RunError>
  {
    if process.deadlineExceeded then Some(CommandTimeout)
    else if process.Unstarted? || process.exitError then Some(CommandFailed)
    else if !WithinLimit(process.stdout, limit) || !WithinLimit(process.stderr, limit) then Some(OutputTruncated)
    else None
  }

  method Capture(chunks: seq<Chunk>, limit: int) returns (b: LimitedBuffer)
    ensures b.buffer == Clip(Stream(chunks), limit)
    ensures b.truncated <==> !WithinLimit(chunks, limit)
  {
    b := new LimitedBuffer(limit);
    var i := 0;
    while i < |chunks|
      invariant 0 <= i <= |chunks| && b.Valid() && b.limit == limit && b.written == chunks[..i] && fresh(b)
    {
      var _ := b.Write(chunks[i]);
      assert chunks[..i + 1] == chunks[..i] + [chunks[i]];
      i := i + 1;
    }
    assert chunks[..i] == chunks;
    TruncatedIff(chunks, limit);
  }

  /** Runner.Run after the executable was found on the allowed list. */
  method Run(process: Process, outputLimit: int) returns (result: CommandResult, error: Option<RunError>)
    ensures error == RunVerdict(process, outputLimit)
    ensures result.stdout == Clip(Stream(Stdout(process)), outputLimit)
    ensures result.stderr == Clip(Stream(Stderr(process)), outputLimit)
    ensures error == None ==> result.stdout == Stream(Stdout(process)) && result.stderr == Stream(Stderr(process))
    ensures var bound := if outputLimit > 0 then outputLimit else 0;
            && (result.stdoutTruncated <==> process.Started? && |Stream(process.stdout)| > bound)
            && (result.stderrTruncated <==> process.Started? && |Stream(process.stderr)| > bound)
    ensures error == Some(CommandTimeout) <==> process.deadlineExceeded
    ensures error == Some(CommandFailed) <==> !process.deadlineExceeded && (process.Unstarted? || process.exitError)
    ensures error == Some(OutputTruncated) <==>
            && process.Started? && !process.deadlineExceeded && !process.exitError
            && (result.stdoutTruncated || result.stderrTruncated)
  {
    var stdout := Capture(Stdout(process), outputLimit);
    var stderr := Capture(Stderr(process), outputLimit);
    result := CommandResult(stdout.buffer, stderr.buffer, stdout.truncated, stderr.truncated);
    if process.deadlineExceeded {
      error := Some(CommandTimeout);
    } else if process.Unstarted? || process.exitError {
      error := Some(CommandFailed);
    } else if result.stdoutTruncated || result.stderrTruncated {
      error := Some(OutputTruncated);
    } else {
      error := None;
    }
  }
}
