/** Interrupted and resumed transfers: the local resume upload and the executor's partial
    download file (internal/upload/resume.go, internal/download/resume.go,
    internal/transfer/executor.go). */
module Resuming {
  import opened Text
  import opened Plans
  import opened Copying

  // ---------------------------------------------------------------- resume upload

  /** How one attempt went once the destination was found shorter than the source. */
  datatype Attempt = NotOpened | Interrupted(written: nat) | Finished

  /** The destination after one attempt. */
  function AfterAttempt(source: Bytes, dest: Bytes, a: Attempt): Bytes {
    if |dest| >= |source| then dest else
    match a
    case NotOpened => dest
    case Interrupted(n) => dest + source[|dest|..Min(|dest| + n, |source|)]
    case Finished => dest + source[|dest|..]
  }

  /** Whether the attempt reports success; a destination of equal size counts as complete. */
  predicate Succeeds(source: Bytes, dest: Bytes, a: Attempt) {
    |dest| == |source| || (|dest| < |source| && a.Finished?)
  }

  /** The destination file, if it exists, is held by `target`. `ready` says that directories,
      context and files opened without error. */
  method ResumeUpload(source: Reader, target: Writer, destinationExists: bool, ready: bool, closeFails: bool)
    returns (written: nat, ok: bool, ghost attempt: Attempt)
    requires source.Valid() && source.pos == 0 && (!destinationExists ==> target.data == [])
    modifies source, target
    ensures target.data == AfterAttempt(source.data, old(target.data), attempt)
    ensures ok ==> Succeeds(source.data, old(target.data), attempt) && written == |target.data| - |old(target.data)|
    ensures |old(target.data)| > |source.data| ==> !ok
    ensures |old(target.data)| >= |source.data| || !ready ==> target.data == old(target.data)
    ensures |old(target.data)| < |source.data| && (!ready || closeFails) ==> !ok
    ensures source.Steady() && target.Steady() && ready && !closeFails && |old(target.data)| <= |source.data| ==> ok
  {
    written, ok, attempt := 0, false, NotOpened;
    var destinationSize := if destinationExists then |target.data| else 0;
    if destinationSize > |source.data| {
      return;
    }
    var offset, complete := destinationSize, destinationSize == |source.data|;
    if complete {
      ok := true;
      return;
    }
    if !ready {
      return;
    }
    source.pos := offset;
    if offset == 0 {
      target.Truncate();
    }
    ghost var base := target.data;
    var copied: bool;
    written, copied := CopyAll(target, source, COPY_BUFFER);
    ok := copied && !closeFails;
    attempt := if ok then Finished else Interrupted(written);
  }

  function AfterAttempts(source: Bytes, dest: Bytes, attempts: seq<Attempt>): Bytes {
    if attempts == [] then dest
    else AfterAttempt(source, AfterAttempts(source, dest, attempts[..|attempts| - 1]), attempts[|attempts| - 1])
  }

  /** Through any sequence of interrupted and resumed attempts a prefix stays a prefix and never
      shrinks, and the first successful attempt completes it. */
  lemma {:induction false} ResumeKeepsPrefix(source: Bytes, dest: Bytes, attempts: seq<Attempt>)
    requires dest <= source
    ensures dest <= AfterAttempts(source, dest, attempts) <= source
    ensures (attempts != [] && Succeeds(source, AfterAttempts(source, dest, attempts[..|attempts| - 1]), attempts[|attempts| - 1]))
            ==> AfterAttempts(source, dest, attempts) == source
  {
    if attempts != [] {
      ResumeKeepsPrefix(source, dest, attempts[..|attempts| - 1]);
      var d := AfterAttempts(source, dest, attempts[..|attempts| - 1]);
      assert source == d + source[|d|..];
    }
  }

  /** Only sizes are compared, so success means equality exactly for prefixes. */
  lemma SuccessMeansEqual(source: Bytes, dest: Bytes, a: Attempt)
    requires Succeeds(source, dest, a)
    ensures AfterAttempt(source, dest, a) == source <==> dest <= source
  {
    if dest <= source {
      assert source == dest + source[|dest|..];
    }
  }

  // ---------------------------------------------------------------- resume decision

  datatype ResumeState = ResumeState(existingBytes: nat, rangeFrom: Option<nat>, complete: bool)

  /** The validated resume decision; `rangeFrom` is the start of the Range header, if any. */
  function NewResumeState(enabled: bool, existing: int, total: int): (r: Option<ResumeState>)
    ensures r.Some? <==> existing >= 0 && total >= 0
    ensures r.Some? ==> r.value.existingBytes == existing
    ensures r.Some? ==> (r.value.complete <==> enabled && 0 < total <= existing)
    ensures r.Some? ==> (r.value.rangeFrom == Some(existing) <==> enabled && existing > 0 && !r.value.complete)
    ensures r.Some? ==> r.value.rangeFrom == Some(existing) || r.value.rangeFrom == None
  {
    if existing < 0 || total < 0 then None
    else if !enabled || existing == 0 then Some(ResumeState(existing, None, false))
    else if total > 0 && existing >= total then Some(ResumeState(existing, None, true))
    else Some(ResumeState(existing, Some(existing), false))
  }

  // ---------------------------------------------------------------- executor download

  /** What the server sent: `body` is what arrived before the connection ended, `intact` says
      that it ended without an error. */
  datatype Response = NoResponse | Response(status: int, html: bool, body: Bytes, intact: bool)

  /** The job's payload.part and payload.bin. */
  datatype Disk = Disk(partial: Option<Bytes>, final: Option<Bytes>)

  /** Settings and local faults of one attempt. */
  datatype Env = Env(resumeEnabled: bool, minBytes: int, blockHTML: bool,
                     openFails: bool, closeFails: bool, renameFails: bool, checksumMatches: bool)

  function Existing(d: Disk): nat {
    if d.partial.Some? then |d.partial.value| else 0
  }

  /** Where a resumed download would start. */
  function RangeFrom(d: Disk, env: Env): Option<nat> {
    NewResumeState(env.resumeEnabled, Existing(d), 0).value.rangeFrom
  }

  /** Whether the response is accepted and the partial file opened. */
  predicate Accepted(d: Disk, env: Env, r: Response) {
    && r.Response? && 200 <= r.status < 300
    && (RangeFrom(d, env).Some? ==> r.status == 206)
    && !(env.blockHTML && r.html)
    && !env.openFails
  }

  /** The partial file once the body has been copied. */
  function Received(d: Disk, env: Env, r: Response): Bytes
    requires r.Response?
  {
    if RangeFrom(d, env).Some? then d.partial.value + r.body else r.body
  }

  /** The byte count the attempt reports. */
  function Reported(d: Disk, r: Response): nat
    requires r.Response?
  {
    Existing(d) + |r.body|
  }

  /** The disk and the result after one attempt; None is an error. */
  function AfterDownload(d: Disk, env: Env, r: Response): (Disk, Option<nat>) {
    if !Accepted(d, env, r) then (d, None)
    else if !r.intact || env.closeFails || (env.minBytes > 0 && Reported(d, r) < env.minBytes) || env.renameFails then
      (Disk(Some(Received(d, env, r)), d.final), None)
    else
      (Disk(None, Some(Received(d, env, r))), if env.checksumMatches then Some(Reported(d, r)) else None)
  }

  class JobDirectory {
    var disk: Disk

    constructor ()
      ensures disk == NO_FILES
    {
      disk := NO_FILES;
    }

    method Download(env: Env, response: Response) returns (bytes: Option<nat>)
      modifies this
      ensures (disk, bytes) == AfterDownload(old(disk), env, response)
    {
      var existing := if disk.partial.Some? then |disk.partial.value| else 0;
      var resume := NewResumeState(env.resumeEnabled, existing, 0).value;
      if response.NoResponse? {
        return None;
      }
      if response.status < 200 || response.status >= 300 {
        return None;
      }
      if resume.rangeFrom.Some? && response.status != 206 {
        return None;
      }
      if env.blockHTML && response.html {
        return None;
      }
      if env.openFails {
        return None;
      }
      var file := response.body;
      if resume.rangeFrom.Some? {
        file := disk.partial.value + response.body;
      }
      disk := disk.(partial := Some(file));
      if !response.intact || env.closeFails {
        return None;
      }
      var bytesOnDisk := resume.existingBytes + |response.body|;
      if env.minBytes > 0 && bytesOnDisk < env.minBytes {
        return None;
      }
      if env.renameFails {
        return None;
      }
      disk := Disk(None, Some(file));
      if !env.checksumMatches {
        return None;
      }
      return Some(bytesOnDisk);
    }
  }

  /** What a body carries of the bytes it should: all of them unless it was cut off. */
  predicate Carries(r: Response, expected: Bytes)
    requires r.Response?
  {
    if r.intact then r.body == expected else r.body <= expected
  }

  /** A server that conforms to sections 14.2 and 15.3.7 of RFC 9110 and serves `resource`: a
      plain request gets 200 and the whole of it; a range request gets 206 and the bytes from
      the requested one on, 200 and the whole if the range is ignored, or an error such as 416,
      the only choice left when the range starts at or after the end. */
  predicate Conforms(resource: Bytes, from: Option<nat>, r: Response) {
    r.Response? && 200 <= r.status < 300 ==>
      || (r.status == 200 && Carries(r, resource))
      || (r.status == 206 && from.Some? && from.value < |resource| && Carries(r, resource[from.value..]))
  }

  ghost predicate PartialIsPrefix(d: Disk, resource: Bytes) {
    d.partial.Some? ==> d.partial.value <= resource
  }

  /** One attempt against a conforming server keeps the partial file a prefix of the resource,
      and anything it moves into place is the resource itself. */
  lemma DownloadKeepsPrefix(d: Disk, env: Env, r: Response, resource: Bytes)
    requires PartialIsPrefix(d, resource) && Conforms(resource, RangeFrom(d, env), r)
    ensures var (d', result) := AfterDownload(d, env, r);
            && PartialIsPrefix(d', resource)
            && (d'.final != d.final ==> d'.final == Some(resource))
            && (result.Some? ==> d'.final == Some(resource))
  {
    if Accepted(d, env, r) {
      if RangeFrom(d, env).Some? {
        var have := d.partial.value;
        assert resource == have + resource[|have|..];
      }
    }
  }

  /** When an attempt gets as far as writing, when it moves the file into place and when it reports
      success, told from the settings, the answer and the old partial file alone; and what is
      then on disk. A refused answer touches nothing, and a wrong checksum is found only after
      the file is in place. */
  lemma DownloadDecided(d: Disk, env: Env, r: Response)
    ensures var (d', result) := AfterDownload(d, env, r);
            var old' := if d.partial.Some? then d.partial.value else [];
            var resuming := env.resumeEnabled && old' != [];
            var writes := r.Response? && (if resuming then r.status == 206 else 200 <= r.status <= 299)
                          && (r.html ==> !env.blockHTML) && !env.openFails;
            var places := writes && r.intact && !env.closeFails && !env.renameFails && env.minBytes <= |old'| + |r.body|;
            && (!writes ==> d' == d)
            && (writes && !places ==> d' == Disk(Some(if resuming then old' + r.body else r.body), d.final))
            && (places ==> d' == Disk(None, Some(if resuming then old' + r.body else r.body)))
            && result == if places && env.checksumMatches then Some(|old'| + |r.body|) else None
  {
  }

  datatype Try = Try(env: Env, response: Response)

  const NO_FILES := Disk(None, None)

  function AfterTries(d: Disk, tries: seq<Try>): Disk {
    if tries == [] then d
    else AfterDownload(AfterTries(d, tries[..|tries| - 1]), tries[|tries| - 1].env, tries[|tries| - 1].response).0
  }

  ghost predicate AllConform(d: Disk, tries: seq<Try>, resource: Bytes) {
    forall i :: 0 <= i < |tries| ==>
      Conforms(resource, RangeFrom(AfterTries(d, tries[..i]), tries[i].env), tries[i].response)
  }

  lemma ConformBefore(d: Disk, tries: seq<Try>, resource: Bytes)
    requires tries != [] && AllConform(d, tries, resource)
    ensures AllConform(d, tries[..|tries| - 1], resource)
  {
    assert forall i :: 0 <= i < |tries| ==> tries[..|tries| - 1][..i] == tries[..i];
  }

  /** Through any sequence of interrupted and resumed attempts, starting from an empty directory. */
  lemma {:induction false} DownloadsKeepPrefix(tries: seq<Try>, resource: Bytes)
    requires AllConform(NO_FILES, tries, resource)
    ensures var d := AfterTries(NO_FILES, tries);
            PartialIsPrefix(d, resource) && (d.final.Some? ==> d.final.value == resource)
  {
    if tries != [] {
      var front, last := tries[..|tries| - 1], tries[|tries| - 1];
      ConformBefore(NO_FILES, tries, resource);
      DownloadsKeepPrefix(front, resource);
      DownloadKeepsPrefix(AfterTries(NO_FILES, front), last.env, last.response, resource);
    }
  }

  /** The reported byte count is the length of the file exactly when resuming was enabled or
      there was nothing to resume: with resume disabled the old partial file is truncated but
      still counted. */
  lemma ReportedCount(d: Disk, env: Env, r: Response)
    requires AfterDownload(d, env, r).1.Some?
    ensures AfterDownload(d, env, r).1.value == |AfterDownload(d, env, r).0.final.value|
       <==> env.resumeEnabled || Existing(d) == 0
  {
  }

  /** A partial file that already holds the whole resource is never moved into place: the range
      after its end cannot be satisfied, so every further attempt fails and changes nothing. */
  lemma CompletePartialIsStuck(d: Disk, env: Env, r: Response, resource: Bytes)
    requires resource != [] && d.partial == Some(resource) && env.resumeEnabled
    requires Conforms(resource, RangeFrom(d, env), r)
    ensures AfterDownload(d, env, r) == (d, None)
  {
  }

  // ---------------------------------------------------------------- when a download can be finished

  /** Nothing local stands in the way, and the whole resource passes the size check. */
  predicate Permits(d: Disk, env: Env, resource: Bytes) {
    && !env.openFails && !env.closeFails && !env.renameFails && env.checksumMatches
    && (env.minBytes <= 0 || env.minBytes <= |resource| + if env.resumeEnabled then 0 else Existing(d))
  }

  /** The partial file is already complete, so the range to ask for lies past the end. */
  predicate Stuck(d: Disk, env: Env, resource: Bytes) {
    env.resumeEnabled && resource != [] && d.partial == Some(resource)
  }

  ghost predicate CanFinish(d: Disk, env: Env, resource: Bytes) {
    exists r :: Conforms(resource, RangeFrom(d, env), r) && AfterDownload(d, env, r).1.Some?
  }

  /** An accepted answer that arrives whole finishes the download. */
  lemma IntactAnswerFinishes(d: Disk, env: Env, r: Response, resource: Bytes)
    requires PartialIsPrefix(d, resource) && Conforms(resource, RangeFrom(d, env), r)
    requires Permits(d, env, resource) && Accepted(d, env, r) && r.intact
    ensures AfterDownload(d, env, r).0 == Disk(None, Some(resource)) && AfterDownload(d, env, r).1.Some?
  {
    if RangeFrom(d, env).Some? {
      var have := d.partial.value;
      assert resource == have + resource[|have|..];
    }
  }

  /** Some answer of a conforming server finishes the download if and only if nothing local
      stands in the way and the partial file is not complete yet. */
  lemma FinishableUnlessStuck(d: Disk, env: Env, resource: Bytes)
    requires PartialIsPrefix(d, resource)
    ensures CanFinish(d, env, resource) <==> Permits(d, env, resource) && !Stuck(d, env, resource)
  {
    if Permits(d, env, resource) && !Stuck(d, env, resource) {
      var from := RangeFrom(d, env);
      assert from.Some? ==> d.partial.value != resource && from.value < |resource|;
      var r := if from.Some? then Response(206, false, resource[from.value..], true) else Response(200, false, resource, true);
      IntactAnswerFinishes(d, env, r, resource);
    }
    if CanFinish(d, env, resource) {
      var r :| Conforms(resource, RangeFrom(d, env), r) && AfterDownload(d, env, r).1.Some?;
      assert !Stuck(d, env, resource) by {
        if Stuck(d, env, resource) {
          CompletePartialIsStuck(d, env, r, resource);
        }
      }
    }
  }

  /** Everything arrived and then the attempt failed: the connection ended with an error, or
      closing, the size check or the rename did. */
  predicate Strands(d: Disk, env: Env, r: Response, resource: Bytes) {
    && resource != [] && Accepted(d, env, r) && Received(d, env, r) == resource
    && (!r.intact || env.closeFails || (env.minBytes > 0 && Reported(d, r) < env.minBytes) || env.renameFails)
  }

  /** That is the only way to get stuck, and there is no way out. */
  lemma StuckByStranding(d: Disk, env: Env, r: Response, resource: Bytes)
    requires PartialIsPrefix(d, resource) && Conforms(resource, RangeFrom(d, env), r) && env.resumeEnabled
    ensures Stuck(AfterDownload(d, env, r).0, env, resource) <==> Stuck(d, env, resource) || Strands(d, env, r, resource)
  {
    if Stuck(d, env, resource) {
      CompletePartialIsStuck(d, env, r, resource);
    }
  }

  ghost predicate NeverStrands(tries: seq<Try>, resource: Bytes) {
    tries == [] ||
    var front, last := tries[..|tries| - 1], tries[|tries| - 1];
    NeverStrands(front, resource) && !Strands(AfterTries(NO_FILES, front), last.env, last.response, resource)
  }

  lemma {:induction false} StuckIffStranded(tries: seq<Try>, env: Env, resource: Bytes)
    requires AllConform(NO_FILES, tries, resource) && env.resumeEnabled
    requires forall i :: 0 <= i < |tries| ==> tries[i].env.resumeEnabled
    ensures Stuck(AfterTries(NO_FILES, tries), env, resource) <==> !NeverStrands(tries, resource)
  {
    if tries != [] {
      var front, last := tries[..|tries| - 1], tries[|tries| - 1];
      ConformBefore(NO_FILES, tries, resource);
      StuckIffStranded(front, last.env, resource);
      DownloadsKeepPrefix(front, resource);
      StuckByStranding(AfterTries(NO_FILES, front), last.env, last.response, resource);
    }
  }

  /** After any sequence of attempts with resume enabled, the download can still be finished if
      and only if nothing local stands in the way and no attempt failed after everything had
      arrived. */
  lemma DownloadsCanFinish(tries: seq<Try>, env: Env, resource: Bytes)
    requires AllConform(NO_FILES, tries, resource) && env.resumeEnabled
    requires forall i :: 0 <= i < |tries| ==> tries[i].env.resumeEnabled
    ensures CanFinish(AfterTries(NO_FILES, tries), env, resource)
       <==> Permits(AfterTries(NO_FILES, tries), env, resource) && NeverStrands(tries, resource)
  {
    DownloadsKeepPrefix(tries, resource);
    FinishableUnlessStuck(AfterTries(NO_FILES, tries), env, resource);
    StuckIffStranded(tries, env, resource);
  }

  /** A sequence of attempts that ends in an accepted answer arriving whole leaves the resource
      and nothing else. */
  lemma DownloadsFinish(tries: seq<Try>, resource: Bytes)
    requires tries != [] && AllConform(NO_FILES, tries, resource)
    requires var d, last := AfterTries(NO_FILES, tries[..|tries| - 1]), tries[|tries| - 1];
             Permits(d, last.env, resource) && Accepted(d, last.env, last.response) && last.response.intact
    ensures AfterTries(NO_FILES, tries) == Disk(None, Some(resource))
  {
    var front, last := tries[..|tries| - 1], tries[|tries| - 1];
    ConformBefore(NO_FILES, tries, resource);
    DownloadsKeepPrefix(front, resource);
    IntactAnswerFinishes(AfterTries(NO_FILES, front), last.env, last.response, resource);
  }
}
