/** Downloading a file as separate ranges and merging them (internal/download/multipart.go,
    internal/download/stream.go). */
module MultipartDownload {
  import opened Text
  import opened Plans
  import opened Resuming

  /** One part file as the stream left it; None when the request or the copy failed. A part is
      requested with a Range header, so only 206 is accepted. */
  function Streamed(r: Response): Option<Bytes> {
    if r.Response? && 200 <= r.status < 300 && r.status == 206 && r.intact then Some(r.body) else None
  }

  /** Only a partial answer that arrives whole counts as a part, with exactly its body. */
  lemma StreamedIff(r: Response, body: Bytes)
    ensures Streamed(r) == Some(body) <==> r == Response(206, r.Response? && r.html, body, true)
  {
  }

  /** The merge: every part file copied after the previous one; `readable` says how many part files
      can be read before one fails. */
  method MergeParts(pieces: seq<Bytes>, readable: nat) returns (file: Bytes, ok: bool)
    ensures ok == (|pieces| <= readable)
    ensures ok ==> file == Concat(pieces)
  {
    file := [];
    var i := 0;
    while i < |pieces|
      invariant i <= |pieces| && i <= readable && file == Concat(pieces[..i])
    {
      if i >= readable {
        return file, false;
      }
      assert pieces[..i + 1][..i] == pieces[..i];
      file := file + pieces[i];
      i := i + 1;
    }
    assert pieces[..i] == pieces;
    return file, true;
  }

  /** The server answered each request with exactly the bytes asked for. */
  ghost predicate ServesSlices(server: nat -> Response, parts: seq<Part>, resource: Bytes) {
    forall i :: 0 <= i < |parts| ==>
      Within(parts[i], resource) && Streamed(server(i)) == Some(Slice(resource, parts[i]))
  }

  /** Streams every part into its own file and checks its length. */
  method StreamParts(parts: seq<Part>, server: nat -> Response) returns (pieces: seq<Bytes>, total: nat, ok: bool)
    ensures total >= |Concat(pieces)|
    ensures ok ==> |pieces| == |parts| && total == |Concat(pieces)|
    ensures ok ==> forall k :: 0 <= k < |parts| ==> |pieces[k]| == Length(parts[k]) && Streamed(server(k)) == Some(pieces[k])
    ensures (forall k :: 0 <= k < |parts| ==> Streamed(server(k)).Some? && |Streamed(server(k)).value| == Length(parts[k])) ==> ok
  {
    pieces, total, ok := [], 0, false;
    var i := 0;
    while i < |parts|
      invariant i <= |parts| && |pieces| == i && total == |Concat(pieces)|
      invariant forall k :: 0 <= k < i ==> |pieces[k]| == Length(parts[k]) && Streamed(server(k)) == Some(pieces[k])
    {
      var streamed := Streamed(server(i));
      if streamed.None? {
        return;
      }
      total := total + |streamed.value|;
      if |streamed.value| != parts[i].end - parts[i].start + 1 {
        return;
      }
      assert (pieces + [streamed.value])[..i] == pieces;
      pieces := pieces + [streamed.value];
      i := i + 1;
    }
    ok := true;
  }

  /** `server(i)` answers the request for part i. Success means exactly `totalSize` bytes for any
      server, and the resource itself for one that serves the requested slices of it; such a
      server fails only if a part file cannot be read back, or if there is no plan. */
  method MultipartToFile(totalSize: int64, partSize: int64, server: nat -> Response, readable: nat, ghost resource: Bytes)
    returns (planned: Outcome, file: Bytes, total: nat, ok: bool)
    ensures planned == if totalSize <= 0 || partSize <= 0 then Refused else PlanOutcome(totalSize as int, partSize as int)
    ensures ok ==> planned.Planned? && |file| == total == totalSize as int
    ensures planned.Planned? && |resource| == totalSize as int && ServesSlices(server, planned.plan.parts, resource) ==>
              (ok ==> file == resource) && (|planned.plan.parts| <= readable ==> ok)
  {
    planned := NewMultipartPlan(totalSize, partSize);
    if !planned.Planned? {
      return planned, [], 0, false;
    }
    var parts := planned.plan.parts;
    var pieces, streamed, all := StreamParts(parts, server);
    if !all {
      return planned, [], streamed, false;
    }
    LengthsAdd(0, 0, totalSize as int, partSize as int, parts, pieces);
    if |resource| == totalSize as int && ServesSlices(server, parts, resource) {
      SlicesAssemble(resource, 0, 0, partSize as int, parts, pieces);
    }
    total := streamed;
    file, ok := MergeParts(pieces, readable);
  }
}
