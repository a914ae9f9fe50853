/** Copying files through readers and writers that may stop short or fail at any call
    (internal/upload/multipart.go, internal/upload/local.go). */
module Copying {
  import opened Text
  import opened Plans

  /** What the reader does at one call: how many bytes it would like to deliver, whether it
      fails, and whether it reports the end of the file together with the last bytes. */
  datatype ReadStep = ReadStep(count: nat, fail: bool, eager: bool)

  datatype ReadError = NoError | EndOfFile | Failed

  /** An open source file. Every read delivers at least one byte, fails, or is at the end. */
  class Reader {
    const data: Bytes
    const script: nat -> ReadStep
    var pos: nat
    var calls: nat

    ghost predicate Valid() reads this { pos <= |data| }

    ghost predicate Steady() reads this { forall n :: !script(n).fail }

    constructor (data: Bytes, script: nat -> ReadStep)
      ensures Valid() && pos == 0 && this.data == data && this.script == script
    {
      this.data, this.script, pos, calls := data, script, 0, 0;
    }

    method Read(max: nat) returns (chunk: Bytes, err: ReadError)
      requires Valid() && max > 0
      modifies this
      ensures Valid() && pos == old(pos) + |chunk| && |chunk| <= max && chunk == data[old(pos)..pos]
      ensures err.EndOfFile? ==> pos == |data|
      ensures err.NoError? ==> |chunk| > 0
      ensures Steady() ==> !err.Failed?
    {
      var step := script(calls);
      var n := Min(Min(step.count, max), |data| - pos);
      if step.fail {
        err := Failed;
      } else if pos == |data| {
        err := EndOfFile;
      } else {
        if n == 0 {
          n := 1;
        }
        err := if step.eager && pos + n == |data| then EndOfFile else NoError;
      }
      chunk := data[pos..pos + n];
      pos, calls := pos + n, calls + 1;
    }
  }

  /** What the writer does at one call: how many bytes it takes and whether it fails. */
  datatype WriteStep = WriteStep(short: Option<nat>, fail: bool)

  /** An open destination file. */
  class Writer {
    const script: nat -> WriteStep
    var data: Bytes
    var calls: nat

    ghost predicate Steady() reads this { forall n :: script(n) == WriteStep(None, false) }

    constructor (script: nat -> WriteStep, data: Bytes)
      ensures this.data == data && this.script == script
    {
      this.script, this.data, calls := script, data, 0;
    }

    method Write(chunk: Bytes) returns (n: nat, err: bool)
      modifies this
      ensures n <= |chunk| && data == old(data) + chunk[..n]
      ensures Steady() ==> n == |chunk| && !err
    {
      var step := script(calls);
      n := if step.short.Some? then Min(step.short.value, |chunk|) else |chunk|;
      err := step.fail;
      data, calls := data + chunk[..n], calls + 1;
    }

    method Truncate()
      modifies this
      ensures data == []
    {
      data := [];
    }
  }

  /** Copies up to `limit` bytes. Whatever happens, what was written is what came next in the
      source; success means all `limit` bytes; and without faults it succeeds if they exist. */
  method CopyLimited(target: Writer, source: Reader, bufferSize: nat, limit: nat) returns (written: nat, ok: bool)
    requires source.Valid() && bufferSize > 0
    modifies target, source
    ensures source.Valid() && written <= limit && old(source.pos) + written <= source.pos
    ensures target.data == old(target.data) + source.data[old(source.pos)..old(source.pos) + written]
    ensures ok ==> written == limit && source.pos == old(source.pos) + written
    ensures source.Steady() && target.Steady() && limit <= |source.data| - old(source.pos) ==> ok
  {
    written := 0;
    if limit == 0 {
      return 0, true;
    }
    var remaining: nat := limit;
    while remaining > 0
      invariant source.Valid() && written + remaining == limit
      invariant source.pos == old(source.pos) + written
      invariant target.data == old(target.data) + source.data[old(source.pos)..old(source.pos) + written]
    {
      ghost var at, before := source.pos, target.data;
      var chunk, readErr := source.Read(if bufferSize > remaining then remaining else bufferSize);
      if |chunk| > 0 {
        var out, writeErr := target.Write(chunk);
        written, remaining := written + out, remaining - out;
        AppendChunk(old(target.data), source.data, old(source.pos), at, out, before, chunk);
        if writeErr || out != |chunk| {
          return written, false;
        }
      }
      if readErr != NoError {
        return written, readErr == EndOfFile && remaining == 0;
      }
    }
    return written, true;
  }

  lemma AppendChunk(base: Bytes, data: Bytes, from: nat, at: nat, n: nat, before: Bytes, chunk: Bytes)
    requires from <= at <= at + n <= at + |chunk| <= |data| && before == base + data[from..at] && chunk == data[at..at + |chunk|]
    ensures before + chunk[..n] == base + data[from..at + n]
  {
    assert data[from..at] + data[at..at + n] == data[from..at + n];
    assert chunk[..n] == data[at..at + n];
    assert base + data[from..at] + chunk[..n] == base + (data[from..at] + chunk[..n]);
  }

  /** io.Copy: reads until the end of the source or the first fault. */
  method CopyAll(target: Writer, source: Reader, bufferSize: nat) returns (written: nat, ok: bool)
    requires source.Valid() && bufferSize > 0
    modifies target, source
    ensures source.Valid() && old(source.pos) + written <= source.pos
    ensures target.data == old(target.data) + source.data[old(source.pos)..old(source.pos) + written]
    ensures ok ==> old(source.pos) + written == |source.data|
    ensures source.Steady() && target.Steady() ==> ok
  {
    written := 0;
    while true
      invariant source.Valid() && source.pos == old(source.pos) + written
      invariant target.data == old(target.data) + source.data[old(source.pos)..old(source.pos) + written]
      decreases |source.data| - source.pos
    {
      ghost var at, before := source.pos, target.data;
      var chunk, readErr := source.Read(bufferSize);
      if |chunk| > 0 {
        var out, writeErr := target.Write(chunk);
        written := written + out;
        AppendChunk(old(target.data), source.data, old(source.pos), at, out, before, chunk);
        if writeErr || out != |chunk| {
          return written, false;
        }
      }
      if readErr != NoError {
        return written, readErr == EndOfFile;
      }
    }
  }

  const COPY_BUFFER := 32 * 1024
  const PART_BUFFER := 1024 * 1024

  /** The plain upload: truncate the destination and copy everything. */
  method Upload(target: Writer, source: Reader) returns (written: nat, ok: bool)
    requires source.Valid() && source.pos == 0
    modifies target, source
    ensures target.data <= source.data && |target.data| == written
    ensures ok ==> target.data == source.data
    ensures source.Steady() && target.Steady() ==> ok
  {
    target.Truncate();
    written, ok := CopyAll(target, source, COPY_BUFFER);
  }

  /** Where the copy stands before part i of a plan. */
  function PartStart(plan: Plan, i: nat): int {
    if i < |plan.parts| then plan.parts[i].start else plan.size
  }

  lemma PartsInOrder(plan: Plan, i: nat)
    requires plan.partSize > 0 && plan.parts == PlannedParts(plan.size, plan.partSize) && i < |plan.parts|
    ensures PartStart(plan, 0) == 0 && plan.parts[i].end + 1 == PartStart(plan, i + 1) <= plan.size
    ensures 0 <= Length(plan.parts[i]) && PartStart(plan, i) + Length(plan.parts[i]) == PartStart(plan, i + 1)
  {
    PartsTile(0, 0, plan.size, plan.partSize);
  }

  lemma PlanStartsAtZero(plan: Plan)
    requires plan.partSize > 0 && plan.parts == PlannedParts(plan.size, plan.partSize)
    ensures PartStart(plan, 0) == 0
  {
    PartsTile(0, 0, plan.size, plan.partSize);
  }

  /** The multipart upload after a plan. It leaves a prefix of the source; on success that is as
      much of it as was planned, every part has recorded its planned length, and it is what
      Upload leaves exactly if the file still has the size it had when the plan was made.
      `live(i)` says whether the context is live before part i. */
  method MultipartCopy(target: Writer, source: Reader, plan: Plan, live: nat -> bool)
    returns (written: seq<nat>, total: nat, ok: bool)
    requires source.Valid() && source.pos == 0
    requires plan.partSize > 0 && plan.parts == PlannedParts(plan.size, plan.partSize)
    modifies target, source
    ensures target.data <= source.data && |target.data| == total
    ensures ok ==> total == plan.size && (target.data == source.data <==> plan.size == |source.data|)
    ensures ok ==> |written| == |plan.parts| && forall i :: 0 <= i < |written| ==> written[i] == Length(plan.parts[i])
    ensures source.Steady() && target.Steady() && (forall n :: live(n)) && plan.size <= |source.data| ==> ok
  {
    target.Truncate();
    written, total := [], 0;
    PlanStartsAtZero(plan);
    var buffer, i := Min(plan.partSize, PART_BUFFER), 0;
    while i < |plan.parts|
      invariant i <= |plan.parts| && source.Valid() && source.pos == total
      invariant target.data == source.data[..total]
      invariant total == PartStart(plan, i)
      invariant |written| == i && forall k :: 0 <= k < i ==> written[k] == Length(plan.parts[k])
    {
      if !live(i) {
        return written, total, false;
      }
      PartsInOrder(plan, i);
      var part := plan.parts[i];
      var remaining := if part.end >= part.start then part.end - part.start + 1 else 0;
      var n, copied := CopyLimited(target, source, buffer, remaining);
      written, total := written + [n], total + n;
      if !copied || n != remaining {
        return written, total, false;
      }
      i := i + 1;
    }
    return written, total, true;
  }
}
