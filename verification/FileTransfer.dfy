/**
 * Resumable chunked file copies of the Paramiko driver
 * (`linux_net/plugins/drivers/paramiko/__init__.py`, `_upload_file` and `_download_file`).
 */
module FileTransfer {
  import opened Types

  newtype byte = x: int | 0 <= x < 256
  type Bytes = seq<byte>

  // A file that is written; None while it does not exist.
  class Target {
    var content: Option<Bytes>

    constructor (initial: Option<Bytes>)
      ensures content == initial
    {
      content := initial;
    }
  }

  // What a call returns, or that it raised.
  datatype Outcome = Completed(transferred: nat, total: nat, skipped: bool, resumed: bool) | Interrupted

  function Size(c: Option<Bytes>): nat {
    if c.Some? then |c.value| else 0
  }

  // What the written file holds once it is open: resuming keeps the old content.
  function Base(before: Option<Bytes>, resume: bool): Bytes {
    if resume && before.Some? then before.value else []
  }

  // Resuming over a file at least as long as the source copies nothing.
  predicate Covered(source: Bytes, before: Option<Bytes>, resume: bool) {
    resume && before.Some? && |before.value| >= |source|
  }

  // What a copy that completes leaves behind, for every chunk size but zero.
  function Landed(source: Bytes, before: Option<Bytes>, resume: bool): Bytes {
    if Covered(source, before, resume) then before.value
    else Base(before, resume) + source[|Base(before, resume)|..]
  }

  // What an interrupted copy may leave behind: the file as it was, or some part of the way.
  ghost predicate PartWay(source: Bytes, before: Option<Bytes>, resume: bool, after: Option<Bytes>) {
    || after == before
    || (!Covered(source, before, resume)
        && exists n :: |Base(before, resume)| <= n <= |source|
            && after == Some(Base(before, resume) + source[|Base(before, resume)|..n]))
  }

  // `read(size)` on a binary file: everything that is left when the size is negative.
  function Read(source: Bytes, pos: nat, size: int): (chunk: Bytes)
    requires pos <= |source|
    ensures |chunk| <= |source| - pos && chunk == source[pos..pos + |chunk|]
    ensures chunk == [] <==> pos == |source| || size == 0
  {
    if size < 0 then source[pos..] else source[pos..Min(pos + size, |source|)]
  }

  lemma Grow(base: Bytes, source: Bytes, start: nat, pos: nat, chunk: Bytes, n: nat)
    requires start <= pos && n <= |chunk| && pos + |chunk| <= |source| && chunk == source[pos..pos + |chunk|]
    ensures base + source[start..pos] + chunk[..n] == base + source[start..pos + n]
    ensures n == |chunk| ==> chunk[..n] == chunk
  {
    assert source[start..pos] + chunk[..n] == source[start..pos + n];
  }

  // The loop both directions share.  Reads and writes may fail at any point; a failed write may
  // have written part of its chunk.
  method CopyChunks(source: Bytes, start: nat, target: Target, chunkSize: int, healthy: bool)
    returns (done: bool, copied: nat)
    requires start <= |source| && target.content.Some?
    modifies target
    ensures target.content.Some?
    ensures exists n :: start <= n <= |source| && target.content.value == old(target.content.value) + source[start..n]
    ensures done ==> copied == if chunkSize == 0 then 0 else |source| - start
    ensures done ==> target.content.value == old(target.content.value) + source[start..start + copied]
    ensures healthy ==> done
  {
    ghost var base := target.content.value;
    assert base + source[start..start] == base;
    var pos := start;
    copied := 0;
    while true
      invariant start <= pos <= |source| && copied == pos - start
      invariant chunkSize == 0 ==> pos == start
      invariant target.content == Some(base + source[start..pos])
      decreases |source| - pos
    {
      if !healthy {
        if * {
          return false, copied;
        }
      }
      var chunk := Read(source, pos, chunkSize);
      if chunk == [] {
        break;
      }
      Grow(base, source, start, pos, chunk, |chunk|);
      if !healthy {
        if * {
          var written: nat :| written <= |chunk|;
          Grow(base, source, start, pos, chunk, written);
          target.content := Some(target.content.value + chunk[..written]);
          return false, copied;
        }
      }
      target.content := Some(target.content.value + chunk);
      copied := copied + |chunk|;
      pos := pos + |chunk|;
    }
    return true, copied;
  }

  // The single-file part of `_upload_file`.  `sameHash` is None unless the mode is "hash", and then
  // tells whether both digests came out equal.  When `stat` fails the remote file counts as absent,
  // even if it exists, and is written afresh.
  method Upload(local: Bytes, remote: Target, resume: bool, sameHash: Option<bool>, statWorks: bool, chunkSize: int,
                healthy: bool)
    returns (r: Outcome)
    modifies remote
    ensures r.Interrupted? ==> PartWay(local, old(remote.content), resume && statWorks, remote.content)
    ensures healthy ==> r.Completed?
    ensures r.Completed? ==> r.total == |local|
    ensures r.Completed? ==> (r.skipped <==> old(remote.content).Some? && statWorks && sameHash == Some(true))
    ensures r.Completed? && r.skipped ==> remote.content == old(remote.content) && r.transferred == 0
    ensures r.Completed? && !r.skipped && chunkSize != 0 ==>
              remote.content == Some(Landed(local, old(remote.content), resume && statWorks))
    // The counter starts at the old remote size even when the remote file is written afresh.
    ensures r.Completed? && !r.skipped && chunkSize != 0 ==>
              r.transferred == |local| + if resume || !statWorks then 0 else Size(old(remote.content))
    ensures r.Completed? && !r.skipped ==>
              (r.resumed <==> resume && statWorks && 0 < Size(old(remote.content)) < |local|)
  {
    var remoteSize, remoteExists := 0, false;
    if statWorks && remote.content.Some? {
      remoteSize, remoteExists := |remote.content.value|, true;
    }
    if sameHash.Some? && remoteExists {
      if sameHash.value {
        return Completed(0, |local|, true, false);
      }
    }
    if resume && remoteExists {
      if remoteSize >= |local| {
        return Completed(|local|, |local|, false, false);
      }
    }
    if !healthy {
      if * {
        return Interrupted;
      }
    }
    var start := 0;
    if resume && remoteSize > 0 {
      start := remoteSize;
    } else {
      remote.content := Some([]);
    }
    ghost var base := Base(old(remote.content), resume && statWorks);
    assert remote.content.value == base && start == |base|;
    var done, copied := CopyChunks(local, start, remote, chunkSize, healthy);
    if !done {
      return Interrupted;
    }
    assert chunkSize != 0 ==> local[start..start + copied] == local[start..];
    return Completed(remoteSize + copied, |local|, false, resume && remoteSize > 0);
  }

  // The single-file part of `_download_file`, which counts from the size it resumes at.
  method Download(remote: Bytes, local: Target, resume: bool, sameHash: Option<bool>, chunkSize: int, healthy: bool)
    returns (r: Outcome)
    modifies local
    ensures r.Interrupted? ==> PartWay(remote, old(local.content), resume, local.content)
    ensures healthy ==> r.Completed?
    ensures r.Completed? ==> r.total == |remote|
    ensures r.Completed? ==> (r.skipped <==> old(local.content).Some? && sameHash == Some(true))
    ensures r.Completed? && r.skipped ==> local.content == old(local.content) && r.transferred == 0
    ensures r.Completed? && !r.skipped && chunkSize != 0 ==>
              local.content == Some(Landed(remote, old(local.content), resume)) && r.transferred == |remote|
    ensures r.Completed? && !r.skipped ==>
              (r.resumed <==> resume && 0 < Size(old(local.content)) < |remote|)
  {
    var localSize, localExists := 0, local.content.Some?;
    if sameHash.Some? && localExists {
      if sameHash.value {
        return Completed(0, |remote|, true, false);
      }
    }
    if resume && localExists {
      localSize := |local.content.value|;
      if localSize >= |remote| {
        return Completed(|remote|, |remote|, false, false);
      }
    }
    if !healthy {
      if * {
        return Interrupted;
      }
    }
    if !(resume && localSize > 0) {
      local.content := Some([]);
    }
    ghost var base := Base(old(local.content), resume);
    assert local.content.value == base && localSize == |base|;
    var done, copied := CopyChunks(remote, localSize, local, chunkSize, healthy);
    if !done {
      return Interrupted;
    }
    assert chunkSize != 0 ==> remote[localSize..localSize + copied] == remote[localSize..];
    return Completed(localSize + copied, |remote|, false, resume && localSize > 0);
  }

  // ---------- One call ----------

  // The file is absent or a beginning of the source.
  predicate Beginning(source: Bytes, c: Option<Bytes>) {
    c.None? || c.value <= source
  }

  /**
   * A completed copy is exact precisely when it starts afresh or from a beginning of the source.
   */
  lemma LandedExactly(source: Bytes, before: Option<Bytes>, resume: bool)
    ensures Landed(source, before, resume) == source <==> !resume || Beginning(source, before)
  {
    if resume && before.Some? {
      var kept := before.value;
      if |kept| < |source| {
        assert kept + source[|kept|..] == source <==> kept <= source by {
          assert source == source[..|kept|] + source[|kept|..];
          assert (kept + source[|kept|..])[..|kept|] == kept;
        }
      }
    } else {
      assert [] + source[0..] == source;
    }
  }

  // ---------- Interrupted calls ----------

  // A call that resumes keeps what matters: the file is a beginning of the source after it exactly
  // when it was before.
  lemma PartWayKeepsBeginning(source: Bytes, before: Option<Bytes>, after: Option<Bytes>)
    requires PartWay(source, before, true, after)
    ensures Beginning(source, after) <==> Beginning(source, before)
  {
    if after != before {
      var base := Base(before, true);
      var n :| |base| <= n <= |source| && after == Some(base + source[|base|..n]);
      if base <= source {
        assert base + source[|base|..n] == source[..n];
      }
    }
  }

  // A call that starts afresh leaves a beginning of the source unless it failed before opening.
  lemma FreshStartLeavesBeginning(source: Bytes, before: Option<Bytes>, after: Option<Bytes>)
    requires PartWay(source, before, false, after) && after != before
    ensures Beginning(source, after)
  {
    var n :| 0 <= n <= |source| && after == Some([] + source[0..n]);
    assert [] + source[0..n] == source[..n];
  }

  // Each content is what an interrupted call may leave of the one before; resumes[i] tells whether
  // the i-th call resumed.  An upload whose `stat` failed did not, whatever it was asked to do.
  ghost predicate Interruptions(source: Bytes, contents: seq<Option<Bytes>>, resumes: seq<bool>) {
    && |contents| == |resumes| + 1
    && forall i, j :: 0 <= i < j < |contents| && j == i + 1 ==> PartWay(source, contents[i], resumes[i], contents[j])
  }

  // One of the first k calls began afresh and changed the file.
  ghost predicate Refreshed(contents: seq<Option<Bytes>>, resumes: seq<bool>, k: nat)
    requires k <= |resumes| < |contents|
  {
    exists i, j :: 0 <= i < j <= k && j == i + 1 && !resumes[i] && contents[j] != contents[i]
  }

  lemma RefreshedStep(contents: seq<Option<Bytes>>, resumes: seq<bool>, k: nat)
    requires 0 < k <= |resumes| < |contents|
    ensures Refreshed(contents, resumes, k) <==>
            Refreshed(contents, resumes, k - 1) || (!resumes[k - 1] && contents[k] != contents[k - 1])
  {
  }

  lemma {:induction false} InterruptionsKeepBeginning(source: Bytes, contents: seq<Option<Bytes>>, resumes: seq<bool>, k: nat)
    requires Interruptions(source, contents, resumes) && k < |contents|
    ensures Beginning(source, contents[k]) <==> Beginning(source, contents[0]) || Refreshed(contents, resumes, k)
  {
    if k > 0 {
      var before, after := contents[k - 1], contents[k];
      InterruptionsKeepBeginning(source, contents, resumes, k - 1);
      RefreshedStep(contents, resumes, k);
      assert PartWay(source, before, resumes[k - 1], after);
      if resumes[k - 1] {
        PartWayKeepsBeginning(source, before, after);
      } else if after != before {
        FreshStartLeavesBeginning(source, before, after);
      }
    }
  }

  /**
   * Resuming after any number of interruptions: the first call that completes, if it resumes, makes
   * the copy exact precisely when the first call found no file or a beginning of the source, or some
   * call in between began afresh and got as far as opening the file.
   */
  lemma ResumeAfterInterruptions(source: Bytes, contents: seq<Option<Bytes>>, resumes: seq<bool>)
    requires Interruptions(source, contents, resumes)
    ensures Landed(source, contents[|resumes|], true) == source <==>
            Beginning(source, contents[0]) || Refreshed(contents, resumes, |resumes|)
  {
    InterruptionsKeepBeginning(source, contents, resumes, |resumes|);
    LandedExactly(source, contents[|resumes|], true);
  }

  // The promise fails when a fresh copy over another file breaks off before it opens that file and
  // is then resumed: the result has the right size and the wrong beginning.
  lemma ResumeOverOtherFile()
    ensures PartWay([1, 2], Some([3]), false, Some([3]))
    ensures Landed([1, 2], Some([3]), true) == [3, 2]
  {
  }
}
