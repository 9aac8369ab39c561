/** The body of `main` in src/imagine.ts after argument parsing: keep calling
    `/imagine` until it yields a job, keep calling upscale on candidate 1 of
    that job until it yields an image, then hand the image URI and the output
    path to the downloader. The remote client is replaced by a finite script
    of attempt outcomes per capability: `None` is an empty (falsy) reply,
    `Some(x)` a usable one. */
module Pipeline {
  import opened Wrappers
  import opened Seqs
  import opened OutputPath

  /** What a successful `/imagine` reply contributes to the next step. */
  datatype ImagineResult = ImagineResult(id: string, hash: string, flags: int)

  /** The argument of `client.Upscale`. */
  datatype UpscaleRequest = UpscaleRequest(index: int, msgId: string, hash: string, flags: int)

  /** What a successful upscale reply contributes to the download. */
  datatype UpscaleResult = UpscaleResult(uri: string)

  /** One call issued to the remote client. */
  datatype Call = ImagineCall(prompt: string) | UpscaleCall(request: UpscaleRequest)

  /** The arguments of the final `download(uri, filename)`. */
  datatype DownloadRequest = DownloadRequest(uri: string, path: string)

  /** The value a retry loop leaves behind and the number of calls it made. */
  datatype Attempted<T> = Attempted(value: T, calls: nat)

  /** Everything one run does: how often each phase was called, the results
      they settled on, the calls in issue order, and the download. */
  datatype Run = Run(
    imagineCalls: nat, job: ImagineResult,
    upscaleCalls: nat, image: UpscaleResult,
    calls: seq<Call>, download: DownloadRequest)

  /** The capability eventually answers: the abstraction of the unbounded
      loop's only way out. */
  predicate Succeeds<T>(script: seq<Option<T>>) {
    exists i :: 0 <= i < |script| && script[i].Some?
  }

  /** Attempt `k` is the first usable reply of the script. */
  predicate IsFirstSuccess<T>(script: seq<Option<T>>, k: int) {
    && 0 <= k < |script|
    && script[k].Some?
    && forall j :: 0 <= j < k ==> script[j].None?
  }

  /** There is only one first usable reply. */
  lemma FirstSuccessUnique<T>(script: seq<Option<T>>, k: int, k': int)
    requires IsFirstSuccess(script, k) && IsFirstSuccess(script, k')
    ensures k == k'
  {
  }

  /** `while (true) { x = await call(); if (!x) continue; break; }` as a
      recursion over the scripted attempts: the first usable reply, after
      one call per attempt up to and including it. */
  function RetryUntilSome<T>(script: seq<Option<T>>): (r: Attempted<T>)
    requires Succeeds(script)
    ensures r.calls >= 1
    ensures IsFirstSuccess(script, r.calls - 1)
    ensures script[r.calls - 1] == Some(r.value)
    decreases |script|
  {
    match script[0]
    case Some(v) => Attempted(v, 1)
    case None =>
      var rest := script[1..];
      assert Succeeds(rest) by {
        var i :| 0 <= i < |script| && script[i].Some?;
        assert rest[i - 1] == script[i];
      }
      var r := RetryUntilSome(rest);
      assert forall j :: 1 <= j < r.calls + 1 ==> script[j] == rest[j - 1];
      Attempted(r.value, r.calls + 1)
  }

  /** The same loop written as the source writes it, with an attempt
      counter; it settles on the same reply after the same number of calls
      as the recursive reading. */
  method RetryLoop<T>(script: seq<Option<T>>) returns (value: T, calls: nat)
    requires Succeeds(script)
    ensures calls >= 1 && IsFirstSuccess(script, calls - 1)
    ensures script[calls - 1] == Some(value)
    ensures Attempted(value, calls) == RetryUntilSome(script)
  {
    var i := 0;
    while script[i].None?
      invariant 0 <= i < |script|
      invariant forall j :: 0 <= j < i ==> script[j].None?
      invariant exists k :: i <= k < |script| && script[k].Some?
      decreases |script| - i
    {
      i := i + 1;
    }
    value := script[i].value;
    calls := i + 1;
    FirstSuccessUnique(script, i, RetryUntilSome(script).calls - 1);
  }

  /** Attempts scripted after the first usable reply are never consulted. */
  lemma {:induction false} RetryIgnoresLaterAttempts<T>(script: seq<Option<T>>, later: seq<Option<T>>)
    requires Succeeds(script)
    ensures Succeeds(script + later)
    ensures RetryUntilSome(script + later) == RetryUntilSome(script)
    decreases |script|
  {
    var r := RetryUntilSome(script);
    var k := r.calls - 1;
    assert (script + later)[k] == script[k];
    FirstSuccessUnique(script + later, k, RetryUntilSome(script + later).calls - 1);
  }

  /** The upscale request built from an `/imagine` result: always the first
      candidate, with that job's id, hash and flags. */
  function UpscaleRequestFor(job: ImagineResult): (q: UpscaleRequest)
    ensures q.index == 1
    ensures q.msgId == job.id && q.hash == job.hash && q.flags == job.flags
  {
    UpscaleRequest(1, job.id, job.hash, job.flags)
  }

  /** One run: `/imagine` retried to its first usable reply, then upscale of
      candidate 1 of that job retried to its first usable reply, then the
      download of that image's URI to the output path. */
  function RunPipeline(
    prompt: string,
    imagine: seq<Option<ImagineResult>>,
    upscale: seq<Option<UpscaleResult>>,
    dest: Option<string>, sep: char, prefix: Option<string>, sequence: nat): (r: Run)
    requires Succeeds(imagine) && Succeeds(upscale)
    // each phase stops at its first usable reply and passes that reply on
    ensures r.imagineCalls >= 1 && IsFirstSuccess(imagine, r.imagineCalls - 1)
    ensures imagine[r.imagineCalls - 1] == Some(r.job)
    ensures r.upscaleCalls >= 1 && IsFirstSuccess(upscale, r.upscaleCalls - 1)
    ensures upscale[r.upscaleCalls - 1] == Some(r.image)
    // every /imagine call precedes every upscale call, and every upscale
    // call asks for candidate 1 of the job /imagine settled on
    ensures r.calls == Replicate(ImagineCall(prompt), r.imagineCalls)
                     + Replicate(UpscaleCall(UpscaleRequest(1, r.job.id, r.job.hash, r.job.flags)), r.upscaleCalls)
    // the download fetches the upscaled image into the output path
    ensures r.download == DownloadRequest(r.image.uri, BuildOutputPath(dest, sep, prefix, sequence))
  {
    var im := RetryUntilSome(imagine);
    var up := RetryUntilSome(upscale);
    var calls := Replicate(ImagineCall(prompt), im.calls)
               + Replicate(UpscaleCall(UpscaleRequestFor(im.value)), up.calls);
    Run(im.calls, im.value, up.calls, up.value, calls,
        DownloadRequest(up.value.uri, BuildOutputPath(dest, sep, prefix, sequence)))
  }

  /** Upscale is never called before `/imagine` has produced its job: once
      an upscale call appears in the trace, no `/imagine` call follows, and
      exactly `imagineCalls` calls come before the first one. */
  lemma UpscaleAfterImagine(
    prompt: string,
    imagine: seq<Option<ImagineResult>>,
    upscale: seq<Option<UpscaleResult>>,
    dest: Option<string>, sep: char, prefix: Option<string>, sequence: nat)
    requires Succeeds(imagine) && Succeeds(upscale)
    ensures var r := RunPipeline(prompt, imagine, upscale, dest, sep, prefix, sequence);
      && (forall i, j :: 0 <= i < j < |r.calls| && r.calls[i].UpscaleCall? ==> r.calls[j].UpscaleCall?)
      && (forall i :: 0 <= i < |r.calls| ==> (r.calls[i].ImagineCall? <==> i < r.imagineCalls))
  {
    var r := RunPipeline(prompt, imagine, upscale, dest, sep, prefix, sequence);
    TwoRuns(ImagineCall(prompt), r.imagineCalls,
            UpscaleCall(UpscaleRequest(1, r.job.id, r.job.hash, r.job.flags)), r.upscaleCalls);
  }

  /** A run depends only on the attempts up to each phase's first usable
      reply: scripting more attempts after them changes nothing. */
  lemma RunIgnoresLaterAttempts(
    prompt: string,
    imagine: seq<Option<ImagineResult>>, moreImagine: seq<Option<ImagineResult>>,
    upscale: seq<Option<UpscaleResult>>, moreUpscale: seq<Option<UpscaleResult>>,
    dest: Option<string>, sep: char, prefix: Option<string>, sequence: nat)
    requires Succeeds(imagine) && Succeeds(upscale)
    ensures Succeeds(imagine + moreImagine) && Succeeds(upscale + moreUpscale)
    ensures RunPipeline(prompt, imagine + moreImagine, upscale + moreUpscale, dest, sep, prefix, sequence)
         == RunPipeline(prompt, imagine, upscale, dest, sep, prefix, sequence)
  {
    RetryIgnoresLaterAttempts(imagine, moreImagine);
    RetryIgnoresLaterAttempts(upscale, moreUpscale);
  }

  /** A generate capability that answers empty twice and then with a job
      gets exactly three `/imagine` calls, and the upscale that follows
      carries that job's identity. */
  lemma TwoEmptyRepliesThenJob(
    prompt: string, job: ImagineResult,
    upscale: seq<Option<UpscaleResult>>,
    dest: Option<string>, sep: char, prefix: Option<string>, sequence: nat)
    requires Succeeds(upscale)
    ensures Succeeds([None, None, Some(job)])
    ensures var r := RunPipeline(prompt, [None, None, Some(job)], upscale, dest, sep, prefix, sequence);
      && r.imagineCalls == 3
      && r.calls[..3] == [ImagineCall(prompt), ImagineCall(prompt), ImagineCall(prompt)]
      && r.calls[3] == UpscaleCall(UpscaleRequest(1, job.id, job.hash, job.flags))
  {
    var script: seq<Option<ImagineResult>> := [None, None, Some(job)];
    assert script[2].Some?;
    var r := RunPipeline(prompt, script, upscale, dest, sep, prefix, sequence);
    FirstSuccessUnique(script, r.imagineCalls - 1, 2);
  }
}
