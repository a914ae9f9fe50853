/** The Auren Storage multipart upload protocol (internal/storage/auren.go). */
module Auren {
  import opened Text
  import opened Plans

  /** The calls the adapter makes, in order, with their outcome. */
  datatype Event =
    | Initiate(id: Option<string>)
    | PutPart(number: nat, offset: nat, size: nat, ok: bool)
    | Complete(sizes: seq<nat>, ok: bool)
    | Abort

  /** How the server and the local file behave: an upload ID (None: the call failed; "": the
      answer held none), whether the source opens, and the outcome of each part and of complete. */
  datatype World = World(uploadID: Option<string>, opens: bool, partOk: nat -> bool, completeOk: bool)

  const DEFAULT_PART_SIZE := 16 * 1024 * 1024

  function PartSize(configured: int): (r: nat)
    ensures r > 0
  {
    if configured <= 0 then DEFAULT_PART_SIZE else configured
  }

  // ---------------------------------------------------------------- what should be seen

  function Put(p: Part, ok: bool): Event {
    PutPart(p.index + 1, p.start, if p.end >= p.start then p.end - p.start + 1 else 0, ok)
  }

  /** The part uploads for a list of planned parts, up to the first that fails. */
  function Puts(parts: seq<Part>, partOk: nat -> bool): seq<Event> {
    if parts == [] then [] else
    var ok := partOk(parts[0].index + 1);
    [Put(parts[0], ok)] + if ok then Puts(parts[1..], partOk) else []
  }

  predicate AllOk(parts: seq<Part>, partOk: nat -> bool) {
    parts == [] || (partOk(parts[0].index + 1) && AllOk(parts[1..], partOk))
  }

  function Sizes(parts: seq<Part>): seq<nat> {
    if parts == [] then [] else [Put(parts[0], true).size] + Sizes(parts[1..])
  }

  predicate HoldsID(w: World) {
    w.uploadID.Some? && w.uploadID.value != ""
  }

  /** How a transfer ends. */
  function Ending(parts: seq<Part>, w: World): seq<Event> {
    if !AllOk(parts, w.partOk) then [Abort]
    else if w.completeOk then [Complete(Sizes(parts), true)]
    else [Complete(Sizes(parts), false), Abort]
  }

  /** What follows once an upload ID is held and the file is open. */
  function Transfer(parts: seq<Part>, w: World): seq<Event> {
    Puts(parts, w.partOk) + Ending(parts, w)
  }

  /** Room can be reserved for the results of the parts; Go panics otherwise. */
  predicate Reserves(size: nat, partSize: nat) {
    size == 0 || size + partSize - 1 <= MAX_INT64 || size + 2 * partSize > TWO_TO_64 + 1
  }

  function Protocol(size: nat, partSize: nat, w: World): seq<Event>
    requires partSize > 0
  {
    [Initiate(w.uploadID)]
    + if !HoldsID(w) || !Reserves(size, partSize) then []
      else if !w.opens then [Abort]
      else Transfer(PlannedParts(size, partSize), w)
  }

  predicate Uploads(size: nat, partSize: nat, w: World)
    requires partSize > 0
  {
    HoldsID(w) && Reserves(size, partSize) && w.opens && AllOk(PlannedParts(size, partSize), w.partOk) && w.completeOk
  }

  /** The parts still to be sent when the loop is about to send part `number` at `offset`. */
  function Left(size: nat, partSize: nat, number: nat, offset: nat): seq<Part>
    requires partSize > 0 && number > 0
  {
    if size > 0 then PartsFrom(number - 1, offset, size, partSize)
    else if number == 1 then [Part(0, 0, -1)] else []
  }

  /** The head of what is left is the part the loop is about to send. */
  lemma LeftStep(size: nat, partSize: nat, number: nat, offset: nat, n: nat, ok: bool)
    requires partSize > 0 && number > 0 && (offset < size || (size == 0 && number == 1 && offset == 0))
    requires n == if offset + partSize > size then size - offset else partSize
    ensures var parts := Left(size, partSize, number, offset);
            && parts != [] && parts[0].index + 1 == number
            && Put(parts[0], ok) == PutPart(number, offset, n, ok)
            && parts[1..] == Left(size, partSize, number + 1, offset + n)
  {
    if size > 0 && offset + partSize > size {
      assert PartsFrom(number, offset + partSize, size, partSize) == [];
    }
  }

  lemma Regroup<T>(a: seq<T>, x: T, c: seq<T>)
    ensures a + ([x] + c) == a + [x] + c
  {
  }

  /** What has been sent and what is left make up the whole transfer. */
  ghost predicate Underway(parts: seq<Part>, left: seq<Part>, partOk: nat -> bool, calls: seq<Event>, sizes: seq<nat>) {
    && Puts(parts, partOk) == calls + Puts(left, partOk)
    && AllOk(parts, partOk) == AllOk(left, partOk)
    && Sizes(parts) == sizes + Sizes(left)
  }

  /** Sending the next part. */
  lemma SendNext(parts: seq<Part>, left: seq<Part>, partOk: nat -> bool, calls: seq<Event>, sizes: seq<nat>)
    requires Underway(parts, left, partOk, calls, sizes) && left != []
    ensures var ok := partOk(left[0].index + 1);
            if ok then Underway(parts, left[1..], partOk, calls + [Put(left[0], true)], sizes + [Put(left[0], true).size])
            else Puts(parts, partOk) == calls + [Put(left[0], false)] && !AllOk(parts, partOk)
  {
    Regroup(calls, Put(left[0], true), Puts(left[1..], partOk));
    Regroup(sizes, Put(left[0], true).size, Sizes(left[1..]));
  }

  lemma SendStep(parts: seq<Part>, left: seq<Part>, size: nat, partSize: nat, number: nat, offset: nat, n: nat,
                 partOk: nat -> bool, calls: seq<Event>, sizes: seq<nat>)
    returns (rest: seq<Part>)
    requires partSize > 0 && number > 0 && (offset < size || (size == 0 && number == 1 && offset == 0))
    requires n == if offset + partSize > size then size - offset else partSize
    requires left == Left(size, partSize, number, offset) && Underway(parts, left, partOk, calls, sizes)
    ensures rest == Left(size, partSize, number + 1, offset + n)
    ensures var now := calls + [PutPart(number, offset, n, partOk(number))];
            if partOk(number) then Underway(parts, rest, partOk, now, sizes + [n])
            else Puts(parts, partOk) == now && !AllOk(parts, partOk)
  {
    LeftStep(size, partSize, number, offset, n, partOk(number));
    SendNext(parts, left, partOk, calls, sizes);
    rest := left[1..];
  }

  /** The sizes for which no 64-bit sum goes wrong; an empty file is never a problem. */
  predicate Handles(size: nat, partSize: nat) {
    size <= MAX_INT64 && 0 < partSize <= MAX_INT64 && (size > 0 ==> Fits(size, partSize))
  }

  /** The part loop: the calls it makes, and the sizes it collected if every part succeeded. */
  method SendParts(size: nat, partSize: nat, partOk: nat -> bool) returns (calls: seq<Event>, sizes: seq<nat>, ok: bool)
    requires Handles(size, partSize)
    ensures calls == Puts(PlannedParts(size, partSize), partOk)
    ensures ok == AllOk(PlannedParts(size, partSize), partOk)
    ensures ok ==> sizes == Sizes(PlannedParts(size, partSize))
  {
    ghost var parts := PlannedParts(size, partSize);
    ghost var left := parts;
    calls, sizes := [], [];
    var number: nat, offset: nat := 1, 0;
    while offset < size || (size == 0 && number == 1)
      invariant number >= 1 && 0 <= offset <= size && (offset == 0 || offset == size || offset >= partSize)
      invariant left == Left(size, partSize, number, offset) && Underway(parts, left, partOk, calls, sizes)
      decreases size - offset, 2 - number
    {
      var n: nat := partSize;
      if Wrap(offset + n) > size {
        n := size - offset;
      }
      if size == 0 {
        n := 0;
      }
      left := SendStep(parts, left, size, partSize, number, offset, n, partOk, calls, sizes);
      calls := calls + [PutPart(number, offset, n, partOk(number))];
      if !partOk(number) {
        return calls, sizes, false;
      }
      sizes, offset, number := sizes + [n], offset + n, number + 1;
    }
    assert left == [];
    return calls, sizes, true;
  }

  class AurenAdapter {
    const partSize: nat
    var log: seq<Event>

    constructor (configured: int)
      ensures partSize == PartSize(configured) == (if configured <= 0 then 16777216 else configured) && log == []
    {
      partSize := PartSize(configured);
      log := [];
    }

    /** The panic on reserving room comes after the upload was initiated. */
    method MultipartUpload(size: nat, w: World) returns (ok: bool, panics: bool)
      requires size <= MAX_INT64 && 0 < partSize <= MAX_INT64 && (Reserves(size, partSize) ==> Handles(size, partSize))
      modifies `log
      ensures log == old(log) + Protocol(size, partSize, w)
      ensures ok == Uploads(size, partSize, w)
      ensures panics == (HoldsID(w) && !Reserves(size, partSize))
    {
      log := log + [Initiate(w.uploadID)];
      if w.uploadID.None? || w.uploadID.value == "" {
        return false, false;
      }
      if size > 0 {
        FitsIsExact(size, partSize);
      }
      if Quotient(Wrap(size + partSize - 1), partSize) < 0 {
        return false, true;
      }
      if !w.opens {
        log := log + [Abort];
        Regroup(old(log), Initiate(w.uploadID), [Abort]);
        return false, false;
      }
      var calls, sizes, sent := SendParts(size, partSize, w.partOk);
      var last := [Abort];
      if sent {
        last := if w.completeOk then [Complete(sizes, true)] else [Complete(sizes, false), Abort];
      }
      Regroup(old(log), Initiate(w.uploadID), calls + last);
      log := log + (calls + last);
      return sent && w.completeOk, false;
    }
  }

  // ---------------------------------------------------------------- what every run guarantees

  function Aborts(log: seq<Event>): nat {
    if log == [] then 0 else Aborts(log[..|log| - 1]) + if log[|log| - 1].Abort? then 1 else 0
  }

  lemma {:induction false} AbortsConcat(a: seq<Event>, b: seq<Event>)
    ensures Aborts(a + b) == Aborts(a) + Aborts(b)
  {
    if b == [] {
      assert a + b == a;
    } else {
      AbortsConcat(a, b[..|b| - 1]);
      assert (a + b)[..|a + b| - 1] == a + b[..|b| - 1];
    }
  }

  lemma {:induction false} PutAt(parts: seq<Part>, partOk: nat -> bool, i: nat)
    requires i < |Puts(parts, partOk)|
    ensures i < |parts| && Puts(parts, partOk)[i] == Put(parts[i], partOk(parts[i].index + 1))
  {
    if i > 0 {
      PutAt(parts[1..], partOk, i - 1);
    }
  }

  lemma {:induction false} AllPut(parts: seq<Part>, partOk: nat -> bool)
    ensures |Puts(parts, partOk)| <= |parts| && (AllOk(parts, partOk) ==> |Puts(parts, partOk)| == |parts|)
    ensures AllOk(parts, partOk) <==> forall i :: 0 <= i < |parts| ==> partOk(parts[i].index + 1)
  {
    if parts != [] {
      AllPut(parts[1..], partOk);
      assert forall i :: 0 < i < |parts| ==> parts[i] == parts[1..][i - 1];
    }
  }

  lemma PutsOnly(parts: seq<Part>, partOk: nat -> bool)
    ensures |Puts(parts, partOk)| <= |parts| && (AllOk(parts, partOk) ==> |Puts(parts, partOk)| == |parts|)
    ensures forall i :: 0 <= i < |Puts(parts, partOk)| ==>
              Puts(parts, partOk)[i] == Put(parts[i], partOk(parts[i].index + 1))
    ensures AllOk(parts, partOk) <==> forall i :: 0 <= i < |parts| ==> partOk(parts[i].index + 1)
  {
    AllPut(parts, partOk);
    forall i | 0 <= i < |Puts(parts, partOk)| ensures Puts(parts, partOk)[i] == Put(parts[i], partOk(parts[i].index + 1)) {
      PutAt(parts, partOk, i);
    }
  }

  lemma {:induction false} NoAborts(log: seq<Event>)
    requires forall i :: 0 <= i < |log| ==> log[i].PutPart?
    ensures Aborts(log) == 0
  {
    if log != [] {
      NoAborts(log[..|log| - 1]);
    }
  }

  lemma AbortsOne(e: Event)
    ensures Aborts([e]) == if e.Abort? then 1 else 0
  {
    assert [e][..0] == [];
  }

  lemma EndingAborts(parts: seq<Part>, w: World)
    ensures Aborts(Ending(parts, w)) == if AllOk(parts, w.partOk) && w.completeOk then 0 else 1
  {
    var done, failed := Complete(Sizes(parts), true), Complete(Sizes(parts), false);
    AbortsOne(Abort);
    AbortsOne(done);
    AbortsOne(failed);
    AbortsConcat([failed], [Abort]);
    assert [failed] + [Abort] == [failed, Abort];
  }

  lemma TransferAborts(parts: seq<Part>, w: World)
    ensures Aborts(Transfer(parts, w)) == if AllOk(parts, w.partOk) && w.completeOk then 0 else 1
  {
    var puts := Puts(parts, w.partOk);
    PutsOnly(parts, w.partOk);
    NoAborts(puts);
    EndingAborts(parts, w);
    AbortsConcat(puts, Ending(parts, w));
  }

  /** A run that holds an upload ID either completes and never aborts, or fails and aborts
      exactly once, unless it panics, which leaves the upload open; a run that holds none never
      aborts. */
  lemma AbortExactlyOnFailure(size: nat, partSize: nat, w: World)
    requires partSize > 0
    ensures var log := Protocol(size, partSize, w);
            && Aborts(log) == (if HoldsID(w) && Reserves(size, partSize) && !Uploads(size, partSize, w) then 1 else 0)
            && (Uploads(size, partSize, w) ==> log[|log| - 1].Complete? && log[|log| - 1].ok)
            && (HoldsID(w) && Reserves(size, partSize) && !Uploads(size, partSize, w) ==> log[|log| - 1].Abort?)
            && (HoldsID(w) && !Reserves(size, partSize) ==> log == [Initiate(w.uploadID)])
            && (w.uploadID == None || w.uploadID == Some("") ==> log == [Initiate(w.uploadID)] && !Uploads(size, partSize, w))
  {
    var parts, first := PlannedParts(size, partSize), [Initiate(w.uploadID)];
    AbortsOne(first[0]);
    if !HoldsID(w) || !Reserves(size, partSize) {
      assert Protocol(size, partSize, w) == first;
    } else if !w.opens {
      AbortsConcat(first, [Abort]);
      AbortsOne(Abort);
    } else {
      TransferAborts(parts, w);
      AbortsConcat(first, Transfer(parts, w));
    }
  }

  /** The n-th part uploaded is the n-th planned range, and complete is called only after every
      planned part has succeeded. */
  lemma CompleteComesLast(size: nat, partSize: nat, w: World, i: nat)
    requires partSize > 0 && i < |Protocol(size, partSize, w)|
    ensures var log, parts := Protocol(size, partSize, w), PlannedParts(size, partSize);
            && (log[i].PutPart? ==> 0 < i <= |parts| && log[i] == Put(parts[i - 1], log[i].ok))
            && (log[i].Complete? ==>
                  && i == |parts| + 1 && log[i].sizes == Sizes(parts)
                  && forall k :: 0 < k < i ==> log[k] == Put(parts[k - 1], true))
  {
    var log, parts := Protocol(size, partSize, w), PlannedParts(size, partSize);
    if HoldsID(w) && Reserves(size, partSize) && w.opens {
      var puts := Puts(parts, w.partOk);
      PutsOnly(parts, w.partOk);
      assert forall k :: 0 < k <= |puts| ==> log[k] == puts[k - 1];
    }
  }

  lemma {:induction false} PartStarts(index: nat, start: nat, size: nat, partSize: nat, i: nat)
    requires partSize > 0 && i < |PartsFrom(index, start, size, partSize)|
    ensures PartsFrom(index, start, size, partSize)[i].start == start + i * partSize < size
    decreases size - start
  {
    if i > 0 {
      PartStarts(index + 1, start + partSize, size, partSize, i - 1);
      assert partSize + (i - 1) * partSize == i * partSize;
    }
  }

  /** Part i + 1 of the upload starts after i full parts and is full itself or reaches the end. */
  lemma PartNumbers(size: nat, partSize: nat, i: nat)
    requires partSize > 0 && i < |PlannedParts(size, partSize)|
    ensures var offset := i * partSize;
            offset <= size && Put(PlannedParts(size, partSize)[i], true) == PutPart(i + 1, offset, Min(partSize, size - offset), true)
  {
    if size > 0 {
      PartIndex(size, partSize, i);
      PartStarts(0, 0, size, partSize, i);
      PartEnds(0, 0, size, partSize, i);
    }
  }

  lemma PartIndex(size: nat, partSize: nat, i: nat)
    requires partSize > 0 && size > 0 && i < |PlannedParts(size, partSize)|
    ensures PlannedParts(size, partSize)[i].index == i
  {
    PartsTile(0, 0, size, partSize);
  }

  lemma {:induction false} PartEnds(index: nat, start: nat, size: nat, partSize: nat, i: nat)
    requires partSize > 0 && i < |PartsFrom(index, start, size, partSize)|
    ensures var p := PartsFrom(index, start, size, partSize)[i];
            p.end + 1 == if p.start + partSize < size then p.start + partSize else size
    decreases size - start
  {
    if i > 0 {
      PartEnds(index + 1, start + partSize, size, partSize, i - 1);
    }
  }

  /** What complete reports are the sizes of the parts, in order. */
  lemma {:induction false} ReportedSizes(parts: seq<Part>, i: nat)
    requires i < |parts|
    ensures |Sizes(parts)| == |parts| && Sizes(parts)[i] == Put(parts[i], true).size
  {
    if i > 0 {
      ReportedSizes(parts[1..], i - 1);
    } else if |parts| > 1 {
      ReportedSizes(parts[1..], 0);
    }
  }
}
