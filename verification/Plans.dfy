/** Multipart plans: how a file of a given size is cut into byte ranges
    (internal/upload/multipart.go, internal/download/multipart.go). */
module Plans {
  import opened Text

  type byte = x: int | 0 <= x < 256
  type Bytes = seq<byte>

  newtype int64 = x: int | -MAX_INT64 - 1 <= x <= MAX_INT64

  /** One range; `end` is inclusive, as in an HTTP Range header, and the single part of an empty
      file ends at -1. */
  datatype Part = Part(index: nat, start: nat, end: int)

  function Length(p: Part): int { p.end - p.start + 1 }

  datatype Plan = Plan(size: nat, partSize: nat, parts: seq<Part>)

  /** How planning ends: a refused size, a panic on reserving negative room, a part that ends
      before it starts because a sum has wrapped, or a plan. */
  datatype Outcome = Refused | Panics | Wrapped | Planned(plan: Plan)

  /** The parts that cover [start, size), numbered from `index`. */
  function PartsFrom(index: nat, start: nat, size: nat, partSize: nat): (ps: seq<Part>)
    requires partSize > 0
    decreases size - start
  {
    if start >= size then [] else
    var end := if start + partSize - 1 >= size then size - 1 else start + partSize - 1;
    [Part(index, start, end)] + PartsFrom(index + 1, start + partSize, size, partSize)
  }

  function PlannedParts(size: nat, partSize: nat): seq<Part>
    requires partSize > 0
  {
    if size == 0 then [Part(0, 0, -1)] else PartsFrom(0, 0, size, partSize)
  }

  // ---------------------------------------------------------------- 64-bit arithmetic

  const TWO_TO_64 := 2 * (MAX_INT64 + 1)

  /** The value that Go's 64-bit addition gives for a sum of two numbers. */
  function Wrap(x: int): (r: int)
    requires -TWO_TO_64 <= x < TWO_TO_64
    ensures -MAX_INT64 - 1 <= r <= MAX_INT64
  {
    if x > MAX_INT64 then x - TWO_TO_64 else if x < -MAX_INT64 - 1 then x + TWO_TO_64 else x
  }

  /** Go's division, which rounds towards zero. */
  function Quotient(a: int, b: int): int
    requires b > 0
  {
    if a >= 0 then a / b else -(-a / b)
  }

  predicate Positive64(size: int, partSize: int) {
    0 < size <= MAX_INT64 && 0 < partSize <= MAX_INT64
  }

  /** The room reserved for the parts; Go panics if it is negative. */
  function Capacity(size: int, partSize: int): int
    requires Positive64(size, partSize)
  {
    Quotient(Wrap(size + partSize - 1), partSize)
  }

  /** The end of the part that starts at `start`. */
  function PartEnd(size: int, partSize: int, start: int): int
    requires Positive64(size, partSize) && 0 <= start <= MAX_INT64
  {
    var end := Wrap(start + partSize - 1);
    if end >= size then size - 1 else end
  }

  /** The sizes the planners can handle: no sum overflows, or there is only one part and the part
      size is so large that the overflow does not show in the reserved room. */
  predicate Fits(size: int, partSize: int) {
    size + partSize - 1 <= MAX_INT64 || (partSize >= size && size + 2 * partSize > TWO_TO_64 + 1)
  }

  lemma SmallQuotient(a: nat, b: nat)
    requires b > 0
    ensures a / b == 0 <==> a < b
    ensures a / b >= 0
  {
  }

  /** Outside those sizes the planner panics, or the second part ends before it starts. */
  lemma FitsIsExact(size: int, partSize: int)
    requires Positive64(size, partSize)
    ensures Fits(size, partSize) <==>
              Capacity(size, partSize) >= 0 && (partSize < size ==> PartEnd(size, partSize, partSize) >= partSize)
    ensures Capacity(size, partSize) >= 0 <==> size + partSize - 1 <= MAX_INT64 || size + 2 * partSize > TWO_TO_64 + 1
  {
    var sum := Wrap(size + partSize - 1);
    if sum < 0 {
      SmallQuotient(-sum, partSize);
    } else {
      SmallQuotient(sum, partSize);
    }
  }

  lemma CutNext(parts: seq<Part>, index: nat, start: nat, size: nat, partSize: nat)
    requires partSize > 0 && start < size
    ensures var end := if start + partSize - 1 >= size then size - 1 else start + partSize - 1;
            parts + PartsFrom(index, start, size, partSize)
            == parts + [Part(index, start, end)] + PartsFrom(index + 1, start + partSize, size, partSize)
  {
  }

  /** How planning a nonempty file ends. */
  function PlanOutcome(size: int, partSize: int): Outcome
    requires Positive64(size, partSize)
  {
    if Fits(size, partSize) then Planned(Plan(size, partSize, PlannedParts(size, partSize)))
    else if size + 2 * partSize > TWO_TO_64 + 1 then Wrapped
    else Panics
  }

  /** One step of the loop: the part ends before it starts exactly where a sum has wrapped, and
      otherwise the sums are right. */
  lemma StepIsRight(size: int, partSize: int, start: int)
    requires Positive64(size, partSize) && 0 <= start < size && (start == 0 || start >= partSize)
    requires Fits(size, partSize) || ((start == 0 || start == partSize) && size + 2 * partSize > TWO_TO_64 + 1)
    ensures PartEnd(size, partSize, start) < start <==> !Fits(size, partSize) && start == partSize
    ensures PartEnd(size, partSize, start) >= start ==>
              && Wrap(start + partSize) == start + partSize <= MAX_INT64
              && PartEnd(size, partSize, start) == (if start + partSize - 1 >= size then size - 1 else start + partSize - 1)
  {
  }

  /** The loop shared by both planners, up to the first part that comes out wrong. */
  method CutIntoParts(size: int64, partSize: int64) returns (r: Outcome)
    requires 0 < size && 0 < partSize
    ensures r == PlanOutcome(size as int, partSize as int)
  {
    var total, step := size as int, partSize as int;
    FitsIsExact(total, step);
    if Quotient(Wrap(total + step - 1), step) < 0 {
      return Panics;
    }
    var parts := [];
    var start, index := 0, 0;
    while start < total
      invariant 0 <= start <= MAX_INT64 && (start == 0 || start >= step) && 0 <= index
      invariant Fits(total, step) || ((start == 0 || start == step < total) && total + 2 * step > TWO_TO_64 + 1)
      invariant parts + PartsFrom(index, start, total, step) == PartsFrom(0, 0, total, step)
      decreases total - start
    {
      StepIsRight(total, step, start);
      var end := Wrap(start + step - 1);
      if end >= total {
        end := total - 1;
      }
      if end < start {
        return Wrapped;
      }
      CutNext(parts, index, start, total, step);
      parts := parts + [Part(index, start, end)];
      start, index := Wrap(start + step), index + 1;
    }
    return Planned(Plan(total, step, parts));
  }

  /** The upload planner. */
  method NewPlan(size: int64, partSize: int64) returns (r: Outcome)
    ensures r == if size < 0 || partSize <= 0 then Refused
                 else if size == 0 then Planned(Plan(0, partSize as int, PlannedParts(0, partSize as int)))
                 else PlanOutcome(size as int, partSize as int)
    ensures size == 0 && partSize > 0 ==> r == Planned(Plan(0, partSize as int, [Part(0, 0, -1)]))
  {
    if size < 0 || partSize <= 0 {
      return Refused;
    }
    if size == 0 {
      return Planned(Plan(0, partSize as int, [Part(0, 0, -1)]));
    }
    r := CutIntoParts(size, partSize);
  }

  /** The download planner, which refuses an empty file. */
  method NewMultipartPlan(totalSize: int64, partSize: int64) returns (r: Outcome)
    ensures r == if totalSize <= 0 || partSize <= 0 then Refused else PlanOutcome(totalSize as int, partSize as int)
  {
    if totalSize <= 0 || partSize <= 0 {
      return Refused;
    }
    r := CutIntoParts(totalSize, partSize);
  }

  // ---------------------------------------------------------------- tiling

  /** The parts follow each other without gap or overlap, each full except perhaps the last. */
  ghost predicate Tiles(ps: seq<Part>, index: nat, start: nat, size: nat, partSize: nat) {
    && (start < size <==> ps != [])
    && (ps != [] ==> ps[0].start == start && ps[|ps| - 1].end == size - 1)
    && (forall i :: 0 <= i < |ps| ==> ps[i].index == index + i && 1 <= Length(ps[i]) <= partSize && ps[i].end < size)
    && (forall i :: 0 <= i < |ps| - 1 ==> Length(ps[i]) == partSize && ps[i + 1].start == ps[i].end + 1)
  }

  /** A part in front of parts that tile what follows it. */
  lemma TilesFirst(p: Part, rest: seq<Part>, index: nat, start: nat, size: nat, partSize: nat)
    requires partSize > 0 && start < size && p.index == index && p.start == start
    requires p.end == (if start + partSize - 1 >= size then size - 1 else start + partSize - 1)
    requires Tiles(rest, index + 1, start + partSize, size, partSize)
    ensures Tiles([p] + rest, index, start, size, partSize)
  {
    var ps := [p] + rest;
    assert forall i :: 0 < i < |ps| ==> ps[i] == rest[i - 1];
  }

  lemma {:induction false} PartsTile(index: nat, start: nat, size: nat, partSize: nat)
    requires partSize > 0
    ensures Tiles(PartsFrom(index, start, size, partSize), index, start, size, partSize)
    decreases size - start
  {
    if start < size {
      var ps, rest := PartsFrom(index, start, size, partSize), PartsFrom(index + 1, start + partSize, size, partSize);
      PartsTile(index + 1, start + partSize, size, partSize);
      assert ps == [ps[0]] + rest;
      TilesFirst(ps[0], rest, index, start, size, partSize);
    }
  }

  lemma {:induction false} StartsFrom(index: nat, start: nat, size: nat, partSize: nat, j: nat)
    requires partSize > 0 && j < |PartsFrom(index, start, size, partSize)|
    ensures PartsFrom(index, start, size, partSize)[j].start >= start
    decreases size - start
  {
    if j > 0 {
      StartsFrom(index + 1, start + partSize, size, partSize, j - 1);
    }
  }

  /** Every offset of the file is in exactly one part. */
  lemma {:induction false} CoveredOnce(index: nat, start: nat, size: nat, partSize: nat, o: nat) returns (i: nat)
    requires partSize > 0 && start <= o < size
    ensures var ps := PartsFrom(index, start, size, partSize);
            && i < |ps| && ps[i].start <= o <= ps[i].end
            && forall j :: 0 <= j < |ps| && ps[j].start <= o <= ps[j].end ==> j == i
    decreases size - start
  {
    var ps, rest := PartsFrom(index, start, size, partSize), PartsFrom(index + 1, start + partSize, size, partSize);
    if o < start + partSize {
      i := 0;
      forall j | 0 < j < |ps| ensures ps[j].start > o {
        assert ps[j] == rest[j - 1];
        StartsFrom(index + 1, start + partSize, size, partSize, j - 1);
      }
    } else {
      var k := CoveredOnce(index + 1, start + partSize, size, partSize, o);
      i := k + 1;
      forall j | 0 <= j < |ps| && ps[j].start <= o <= ps[j].end ensures j == i {
        assert j > 0 ==> ps[j] == rest[j - 1];
      }
    }
  }

  // ---------------------------------------------------------------- contents

  ghost predicate Within(p: Part, data: Bytes) {
    p.start <= p.end + 1 <= |data|
  }

  function Slice(data: Bytes, p: Part): Bytes
    requires Within(p, data)
  {
    data[p.start..p.end + 1]
  }

  function Concat(pieces: seq<Bytes>): Bytes {
    if pieces == [] then [] else Concat(pieces[..|pieces| - 1]) + pieces[|pieces| - 1]
  }

  lemma {:induction false} ConcatFront(piece: Bytes, pieces: seq<Bytes>)
    ensures Concat([piece] + pieces) == piece + Concat(pieces)
  {
    if pieces == [] {
      assert [piece] + pieces == [piece] && [piece][..0] == [];
      assert Concat([piece]) == Concat([]) + piece;
    } else {
      var all := [piece] + pieces;
      assert all[..|all| - 1] == [piece] + pieces[..|pieces| - 1];
      ConcatFront(piece, pieces[..|pieces| - 1]);
    }
  }

  /** Each piece is the slice of the file that its part describes. */
  ghost predicate Sliced(data: Bytes, ps: seq<Part>, pieces: seq<Bytes>) {
    |pieces| == |ps| && forall i :: 0 <= i < |ps| ==> Within(ps[i], data) && pieces[i] == Slice(data, ps[i])
  }

  lemma SlicedRest(data: Bytes, ps: seq<Part>, pieces: seq<Bytes>)
    requires Sliced(data, ps, pieces) && ps != []
    ensures Sliced(data, ps[1..], pieces[1..])
  {
    forall i | 0 <= i < |ps[1..]| ensures Within(ps[1..][i], data) && pieces[1..][i] == Slice(data, ps[1..][i]) {
      assert ps[1..][i] == ps[i + 1] && pieces[1..][i] == pieces[i + 1];
    }
  }

  lemma SliceThenRest(data: Bytes, start: nat, p: Part, next: nat)
    requires start < |data| && p.start == start && p.end + 1 == (if next < |data| then next else |data|) && start < next
    ensures Slice(data, p) + (if next < |data| then data[next..] else []) == data[start..]
  {
  }

  lemma NextParts(index: nat, start: nat, size: nat, partSize: nat)
    requires partSize > 0 && start < size
    ensures var ps, next := PartsFrom(index, start, size, partSize), start + partSize;
            && ps != [] && ps[0].start == start && ps[0].end + 1 == (if next < size then next else size)
            && ps[1..] == PartsFrom(index + 1, next, size, partSize)
  {
  }

  /** Pieces that are the planned slices of a file put together give back the file. */
  lemma {:induction false} SlicesAssemble(data: Bytes, index: nat, start: nat, partSize: nat, ps: seq<Part>, pieces: seq<Bytes>)
    requires partSize > 0 && ps == PartsFrom(index, start, |data|, partSize)
    requires Sliced(data, ps, pieces)
    ensures Concat(pieces) == if start < |data| then data[start..] else []
    decreases |data| - start
  {
    if start < |data| {
      NextParts(index, start, |data|, partSize);
      SlicedRest(data, ps, pieces);
      SlicesAssemble(data, index + 1, start + partSize, partSize, ps[1..], pieces[1..]);
      AssembleOne(data, start, start + partSize, ps, pieces);
    }
  }

  lemma AssembleOne(data: Bytes, start: nat, next: nat, ps: seq<Part>, pieces: seq<Bytes>)
    requires start < |data| && start < next && ps != [] && Sliced(data, ps, pieces)
    requires ps[0].start == start && ps[0].end + 1 == (if next < |data| then next else |data|)
    requires Concat(pieces[1..]) == if next < |data| then data[next..] else []
    ensures Concat(pieces) == data[start..]
  {
    ConcatSplit(pieces);
    SliceThenRest(data, start, ps[0], next);
  }

  lemma ConcatSplit(pieces: seq<Bytes>)
    requires pieces != []
    ensures Concat(pieces) == pieces[0] + Concat(pieces[1..])
  {
    assert pieces == [pieces[0]] + pieces[1..];
    ConcatFront(pieces[0], pieces[1..]);
  }

  /** Pieces of the planned lengths have the planned total length, whatever they hold. */
  lemma {:induction false} LengthsAdd(index: nat, start: nat, size: nat, partSize: nat, ps: seq<Part>, pieces: seq<Bytes>)
    requires partSize > 0 && ps == PartsFrom(index, start, size, partSize)
    requires |pieces| == |ps| && forall i :: 0 <= i < |ps| ==> |pieces[i]| == Length(ps[i])
    ensures |Concat(pieces)| == if start < size then size - start else 0
    decreases size - start
  {
    if start < size {
      LengthsAdd(index + 1, start + partSize, size, partSize, ps[1..], pieces[1..]);
      ConcatSplit(pieces);
    }
  }
}
