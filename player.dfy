// The double-buffered playback pipeline of main/animation_player.c.
//
// The player keeps a front buffer (the animation on screen) and a back buffer
// (the next one). A cycle request records the target index and wakes the
// loader; the loader loads the file into the back buffer and asks the render
// loop to prefetch its first frame; the render loop prefetches, swaps the
// buffers when a swap is requested and the back buffer is ready, renders one
// frame of the front buffer and paces it.
//
// The tasks are modelled as atomic steps over one record, Pipeline: each step
// is one critical section of the source (the loader task has two). The
// decoders, the SD card, the clock and the random generator are inputs.
module AnimationPlayer {
  import opened Esp

  /** An error code other than ESP_OK. */
  type Failure = e: Err | e != Ok witness Fail

  /** The fields of animation_buffer_t that the pipeline reads and writes. */
  datatype Buffer = Buffer(
    hasDecoder: bool,        // decoder != NULL
    hasFile: bool,           // file_data != NULL
    hasNative: bool,         // native_frame_b1 and native_frame_b2 allocated
    hasPrefetchFrame: bool,  // prefetched_first_frame != NULL
    assetIndex: nat,
    ready: bool,
    firstFrameReady: bool,
    atFrame1: bool,          // decoder_at_frame_1
    prefetchPending: bool,
    prefetchedDelay: nat,    // prefetched_first_frame_delay_ms
    currentDelay: nat,       // current_frame_delay_ms
    nativeActive: nat        // native_buffer_active
  )

  /** A buffer cleared with memset, as animation_player_init leaves both before loading. */
  const Zeroed: Buffer := Buffer(false, false, false, false, 0, false, false, false, false, 0, 0, 0)

  // ---------------------------------------------------------------------
  // Playlist order
  // ---------------------------------------------------------------------

  /** get_next_asset_index for a playlist of n names. */
  function Next(i: nat, n: nat): (r: nat)
    ensures n == 0 ==> r == 0
    ensures n > 0 ==> r < n
  {
    if n == 0 then 0 else (i + 1) % n
  }

  /** get_previous_asset_index for a playlist of n names. */
  function Prev(i: nat, n: nat): (r: nat)
    ensures n == 0 ==> r == 0
    ensures 0 < n && i < n ==> r < n
  {
    if n == 0 then 0 else if i == 0 then n - 1 else i - 1
  }

  /** Stepping forward and stepping back undo each other. */
  lemma PrevNextInverse(i: nat, n: nat)
    requires i < n
    ensures Prev(Next(i, n), n) == i
    ensures Next(Prev(i, n), n) == i
  {
    if i + 1 < n {
      ModBelow(i + 1, n);
    } else {
      ModSelf(n);
    }
    if i == 0 {
      ModSelf(n);
    } else {
      ModBelow(i, n);
    }
  }

  lemma ModBelow(a: nat, n: nat)
    requires a < n
    ensures a % n == a
  {
  }

  lemma ModSelf(n: nat)
    requires n > 0
    ensures n % n == 0
  {
  }

  /** The last index wraps to the first and back. */
  lemma IndexWraps(n: nat)
    requires n > 0
    ensures Next(n - 1, n) == 0 && Prev(0, n) == n - 1
  {
  }

  /** k forward steps from i. */
  function StepsForward(i: nat, n: nat, k: nat): nat
  {
    if k == 0 then i else Next(StepsForward(i, n, k - 1), n)
  }

  lemma {:induction false} StepsForwardIsAddition(i: nat, n: nat, k: nat)
    requires i < n
    ensures StepsForward(i, n, k) == (i + k) % n
  {
    if k > 0 {
      var a: nat := i + k - 1;
      StepsForwardIsAddition(i, n, k - 1);
      ModSuccessor(a, n);
      assert StepsForward(i, n, k) == Next(a % n, n) == (a % n + 1) % n;
      assert a + 1 == i + k;
    }
  }

  /** Division by a positive n has one quotient and one remainder. */
  lemma ModUnique(a: int, n: int, q: int, r: int)
    requires n > 0 && 0 <= r < n && a == q * n + r
    ensures a % n == r && a / n == q
  {
    var q0, r0 := a / n, a % n;
    assert (q - q0) * n == r0 - r;
    if q - q0 >= 1 {
      assert false;
    } else if q - q0 <= -1 {
      assert false;
    }
  }

  lemma ModSuccessor(a: nat, n: nat)
    requires n > 0
    ensures (a % n + 1) % n == (a + 1) % n
  {
    var q, r := a / n, a % n;
    if r + 1 < n {
      ModUnique(a + 1, n, q, r + 1);
      ModUnique(r + 1, n, 0, r + 1);
    } else {
      ModUnique(a + 1, n, q + 1, 0);
      ModUnique(n, n, 1, 0);
    }
  }

  /** n forward steps through a playlist of n names come back to the start. */
  lemma FullTurnReturns(i: nat, n: nat)
    requires i < n
    ensures StepsForward(i, n, n) == i
  {
    StepsForwardIsAddition(i, n, n);
    ModUnique(i + n, n, 1, i);
  }

  // ---------------------------------------------------------------------
  // One buffer: unload, load, prefetch, render
  // ---------------------------------------------------------------------

  /** unload_animation_buffer: frees everything the buffer holds and resets its bookkeeping. */
  function Unload(b: Buffer): Buffer
  {
    Buffer(false, false, false, false, 0, false, false, false, false, 1, 1, 0)
  }

  /** How a load of one playlist entry ends, as the SD card and the decoder decide. */
  datatype LoadStage =
    | FileFails(err: Failure)   // the path is too long or the file cannot be read
    | DecoderFails(err: Failure) // decoder init, get_info or a native frame allocation fails
    | LookupAllocFails          // an upscale lookup table cannot be allocated
    | PrefetchAllocFails        // the LCD-sized prefetch frame cannot be allocated
    | Loads

  /** The buffer after load_animation_into_buffer, its result, and how often it released the new file's bytes. */
  datatype LoadResult = LoadResult(buf: Buffer, err: Err, fileReleases: nat)

  /** 1 if freeing the buffer's resources releases a file it holds. */
  function FileReleasedByUnload(b: Buffer): nat
  {
    if b.hasFile then 1 else 0
  }

  /**
   * init_animation_decoder_for_buffer on a buffer that holds the file just
   * read, and how often it released that file. A decoder failure unloads only
   * the decoder; a lookup-table failure runs unload_animation_buffer, which
   * frees the file too.
   */
  function InitDecoderForBuffer(withFile: Buffer, stage: LoadStage): (r: LoadResult)
    requires withFile.hasFile && !withFile.hasDecoder && !stage.FileFails?
    ensures r.err == Ok <==> stage == Loads || stage == PrefetchAllocFails
    ensures r.err == Ok ==> r.buf.hasDecoder && r.buf.hasFile && r.fileReleases == 0
    ensures r.err != Ok ==> !r.buf.hasDecoder
    ensures stage.DecoderFails? ==> r.buf.hasFile && r.fileReleases == 0
    ensures stage == LookupAllocFails ==> !r.buf.hasFile && r.fileReleases == 1
  {
    match stage
    case DecoderFails(e) => LoadResult(withFile, e, 0)
    case LookupAllocFails => LoadResult(Unload(withFile), NoMem, FileReleasedByUnload(withFile))
    case PrefetchAllocFails | Loads => LoadResult(withFile.(hasDecoder := true, hasNative := true), Ok, 0)
  }

  /**
   * load_animation_into_buffer for entry idx of a playlist of count names.
   * The index checks come before the unload. When the decoder set-up fails,
   * the source frees its local copy of the file pointer (asWritten), although
   * the set-up may already have freed it; the corrected load frees only what
   * the buffer still holds.
   */
  function LoadEntry(b: Buffer, idx: nat, count: nat, stage: LoadStage, asWritten: bool): LoadResult
  {
    if count == 0 then LoadResult(b, NotFound, 0)
    else if idx >= count then LoadResult(b, InvalidArg, 0)
    else
      var u := Unload(b);
      var withFile := u.(hasFile := true, assetIndex := idx);
      if stage.FileFails? then LoadResult(u, stage.err, 0)
      else
        var init := InitDecoderForBuffer(withFile, stage);
        if init.err != Ok then
          var freed := if asWritten then 1 else FileReleasedByUnload(init.buf);
          LoadResult(init.buf.(hasFile := false), init.err, init.fileReleases + freed)
        else if stage == PrefetchAllocFails then LoadResult(Unload(init.buf), NoMem, FileReleasedByUnload(init.buf))
        else LoadResult(init.buf.(hasPrefetchFrame := true), Ok, 0)
  }

  /**
   * load_animation_into_buffer as corrected: every later failure leaves a
   * buffer without a decoder or a file.
   */
  function Load(b: Buffer, idx: nat, count: nat, stage: LoadStage): (r: LoadResult)
    ensures r.err == Ok <==> idx < count && stage == Loads
    ensures r.err == Ok ==> r.buf.hasDecoder && r.buf.hasPrefetchFrame && r.buf.assetIndex == idx && r.fileReleases == 0
    ensures r.err == Ok ==> !r.buf.firstFrameReady && !r.buf.atFrame1 && !r.buf.prefetchPending
    ensures idx >= count ==> r.buf == b && r.fileReleases == 0
    ensures idx < count ==> !r.buf.ready
    ensures idx < count && r.err != Ok ==> !r.buf.hasDecoder && !r.buf.hasFile && r.fileReleases <= 1
  {
    LoadEntry(b, idx, count, stage, false)
  }

  /** load_animation_into_buffer as the source writes it. */
  function LoadAsWritten(b: Buffer, idx: nat, count: nat, stage: LoadStage): LoadResult
  {
    LoadEntry(b, idx, count, stage, true)
  }

  /**
   * As written, a failed lookup allocation frees the file buffer twice (in
   * unload_animation_buffer, then the caller's own free); on every other path
   * the source agrees with the corrected load.
   */
  lemma LookupFailureDoubleRelease(b: Buffer, idx: nat, count: nat, stage: LoadStage)
    requires idx < count
    ensures stage == LookupAllocFails ==> LoadAsWritten(b, idx, count, stage).fileReleases == 2
    ensures stage != LookupAllocFails ==> LoadAsWritten(b, idx, count, stage) == Load(b, idx, count, stage)
  {
  }

  /** In the model, every failure after the file was read releases it exactly once, and a success keeps it. */
  lemma LoadReleasesFileOnce(b: Buffer, idx: nat, count: nat, stage: LoadStage)
    requires idx < count
    ensures Load(b, idx, count, stage).fileReleases == (if stage.FileFails? || stage == Loads then 0 else 1)
  {
  }

  /** get_frame_delay's value, or 1 when it reports an error. */
  function DelayOrDefault(d: Option<nat>): nat
  {
    match d
    case Some(v) => v
    case None => 1
  }

  datatype PrefetchResult = PrefetchResult(buf: Buffer, err: Err)

  /**
   * prefetch_first_frame: decodes frame 0 and upscales it into the prefetch
   * frame. `decode` is what decode_next returned and `delay` what
   * get_frame_delay reported. The upscale workers always complete here.
   */
  function PrefetchFirstFrame(b: Buffer, decode: Err, delay: Option<nat>): (r: PrefetchResult)
    ensures r.err == Ok <==> b.hasDecoder && b.hasPrefetchFrame && decode == Ok
    ensures r.err == Ok ==> r.buf.firstFrameReady && r.buf.atFrame1 && r.buf.prefetchedDelay == DelayOrDefault(delay)
    ensures r.err != Ok ==> r.buf == b
    ensures r.buf.ready == b.ready && r.buf.prefetchPending == b.prefetchPending && r.buf.assetIndex == b.assetIndex
  {
    if !b.hasDecoder || !b.hasPrefetchFrame then PrefetchResult(b, InvalidArg)
    else if decode != Ok then PrefetchResult(b, decode)
    else
      var withDelay := b.(prefetchedDelay := DelayOrDefault(delay));
      PrefetchResult(withDelay.(firstFrameReady := true, atFrame1 := true), Ok)
  }

  /** What the decoder reports while one frame is rendered. */
  datatype FrameDecode = FrameDecode(
    first: Err,         // decode_next
    afterReset: Err,    // decode_next again, after a reset; only read when `first` is INVALID_STATE
    delay: Option<nat>  // get_frame_delay
  )

  /** Which frame a render shows. */
  datatype Shown = Prefetched | Decoded | NotRendered

  datatype RenderResult = RenderResult(buf: Buffer, delay: int, shown: Shown)

  /**
   * render_next_frame: the prefetched frame when asked for and still unused,
   * otherwise the next decoded frame, with one reset and retry at the end of
   * the sequence. A negative delay means nothing was rendered.
   */
  function RenderNextFrame(b: Buffer, usePrefetched: bool, d: FrameDecode): (r: RenderResult)
    ensures r.shown == NotRendered <==> r.delay == -1
    ensures r.shown == NotRendered ==> r.buf == b
    ensures r.shown == Prefetched <==> b.ready && b.hasDecoder && usePrefetched && b.firstFrameReady && b.hasPrefetchFrame
    ensures r.shown == Prefetched ==> r.delay == b.prefetchedDelay && !r.buf.firstFrameReady
    ensures r.shown == Decoded ==> r.delay == r.buf.currentDelay == DelayOrDefault(d.delay)
    ensures r.shown == Decoded ==> r.buf.nativeActive == (if b.nativeActive == 0 then 1 else 0)
    ensures r.shown == Decoded ==> d.first == Ok || (d.first == InvalidState && d.afterReset == Ok)
    ensures r.buf.ready == b.ready && r.buf.assetIndex == b.assetIndex && r.buf.hasDecoder == b.hasDecoder
  {
    if !b.ready || !b.hasDecoder then RenderResult(b, -1, NotRendered)
    else if usePrefetched && b.firstFrameReady && b.hasPrefetchFrame then
      RenderResult(b.(firstFrameReady := false), b.prefetchedDelay, Prefetched)
    else if !b.hasNative then RenderResult(b, -1, NotRendered)
    else if d.first == InvalidState && d.afterReset != Ok then RenderResult(b, -1, NotRendered)
    else if d.first != InvalidState && d.first != Ok then RenderResult(b, -1, NotRendered)
    else
      var delay := DelayOrDefault(d.delay);
      var toggled := if b.nativeActive == 0 then 1 else 0;
      RenderResult(b.(currentDelay := delay, nativeActive := toggled), delay, Decoded)
  }

  /** The prefetched frame is shown at most once: the next render of the same buffer decodes. */
  lemma PrefetchedFrameUsedOnce(b: Buffer, d1: FrameDecode, d2: FrameDecode)
    requires RenderNextFrame(b, true, d1).shown == Prefetched
    ensures RenderNextFrame(RenderNextFrame(b, true, d1).buf, true, d2).shown != Prefetched
  {
  }

  /** An end of sequence gets exactly one reset and retry; a second end of sequence renders nothing. */
  lemma EndOfSequenceRetriedOnce(b: Buffer, usePrefetched: bool, d: FrameDecode)
    requires b.ready && b.hasDecoder && b.hasNative && !(usePrefetched && b.firstFrameReady && b.hasPrefetchFrame)
    requires d.first == InvalidState
    ensures RenderNextFrame(b, usePrefetched, d).shown == Decoded <==> d.afterReset == Ok
  {
  }

  /** An unloaded buffer can neither be prefetched nor rendered. */
  lemma UnloadedBufferIsInert(b: Buffer, decode: Err, delay: Option<nat>, usePrefetched: bool, d: FrameDecode)
    ensures PrefetchFirstFrame(Unload(b), decode, delay).err == InvalidArg
    ensures RenderNextFrame(Unload(b), usePrefetched, d).shown == NotRendered
  {
  }

  // ---------------------------------------------------------------------
  // The pipeline
  // ---------------------------------------------------------------------

  /** Build-time settings the render loop reads. */
  datatype Config = Config(
    bufferCount: nat,  // s_buffer_count, the number of LCD frame buffers
    maxSpeed: bool,    // APP_LCD_MAX_SPEED_PLAYBACK_ENABLED
    tickRateHz: nat    // configTICK_RATE_HZ
  )

  /** The player's shared state, plus the loader's and the render loop's variables that live across steps. */
  datatype Pipeline = Pipeline(
    front: Buffer,
    back: Buffer,
    count: nat,               // s_sd_file_list.count
    nextIndex: nat,           // s_next_asset_index
    swapRequested: bool,      // s_swap_requested
    loaderBusy: bool,         // s_loader_busy
    loaderSignalled: bool,    // s_loader_sem, a binary semaphore
    paused: bool,             // s_anim_paused
    loading: nat,             // the loader's asset_index_to_load
    swapWasRequested: bool,   // the loader's swap_was_requested
    usePrefetched: bool,      // the render loop's use_prefetched
    targetDelay: nat,         // s_target_frame_delay_ms
    renderIndex: nat,         // s_render_buffer_index
    lastDisplay: nat,         // s_last_display_buffer
    cfg: Config
  )

  /** A swap is in progress: cycle requests are dropped. */
  predicate Busy(s: Pipeline)
  {
    s.swapRequested || s.loaderBusy || s.back.prefetchPending
  }

  /** The index a cycle request steps from: the front's asset, or 0 when the front is not ready. */
  function Current(s: Pipeline): nat
  {
    if s.front.ready then s.front.assetIndex else 0
  }

  /** Records a load target, requests the swap and wakes the loader. */
  function RequestLoad(s: Pipeline, target: nat): Pipeline
  {
    s.(nextIndex := target, swapRequested := true, loaderSignalled := true)
  }

  /** animation_player_cycle_animation. */
  function Cycle(s: Pipeline, forward: bool): (r: Pipeline)
    ensures s.count == 0 || Busy(s) ==> r == s
    ensures s.count > 0 && !Busy(s) ==>
      r.swapRequested && r.loaderSignalled &&
      r.nextIndex == (if forward then Next(Current(s), s.count) else Prev(Current(s), s.count)) &&
      r.front == s.front && r.back == s.back && r.loaderBusy == s.loaderBusy && r.paused == s.paused
    ensures s.count > 0 && !Busy(s) && Current(s) < s.count ==> r.nextIndex < s.count
  {
    if s.count == 0 || Busy(s) then s
    else RequestLoad(s, if forward then Next(Current(s), s.count) else Prev(Current(s), s.count))
  }

  /** The indices the random pick of animation_player_cycle_to_random can end with. */
  predicate RandomPickAllowed(s: Pipeline, target: nat)
  {
    if s.count <= 1 then target == 0 else target < s.count && target != Current(s)
  }

  /** The draw loop always has a way out: some index is allowed. */
  lemma RandomPickExists(s: Pipeline) returns (target: nat)
    ensures RandomPickAllowed(s, target)
  {
    if s.count <= 1 {
      target := 0;
    } else if Current(s) == 0 {
      target := 1;
    } else {
      target := 0;
    }
  }

  /** animation_player_cycle_to_random, given the index its draw loop settled on. */
  function CycleToRandom(s: Pipeline, target: nat): (r: Pipeline)
    requires RandomPickAllowed(s, target)
    ensures s.count == 0 || Busy(s) ==> r == s
    ensures s.count > 0 && !Busy(s) ==> r == RequestLoad(s, target) && r.nextIndex < s.count
    ensures s.count > 1 && !Busy(s) ==> r.nextIndex != Current(s)
  {
    if s.count == 0 || Busy(s) then s else RequestLoad(s, target)
  }

  /** A second request while the first is pending is dropped. */
  lemma SecondRequestDropped(s: Pipeline, f1: bool, f2: bool, pick: nat)
    requires s.count > 0 && !Busy(s)
    ensures Cycle(Cycle(s, f1), f2) == Cycle(s, f1)
    ensures RandomPickAllowed(Cycle(s, f1), pick) ==> CycleToRandom(Cycle(s, f1), pick) == Cycle(s, f1)
  {
  }

  /** The loader's first critical section: take the signal, read the target, mark itself busy. */
  function LoaderBegin(s: Pipeline): (r: Pipeline)
    ensures !s.loaderSignalled || s.loaderBusy ==> r == s
    ensures s.loaderSignalled && !s.loaderBusy ==>
      r.loaderBusy && !r.loaderSignalled && r.loading == s.nextIndex && r.swapWasRequested == s.swapRequested
  {
    if !s.loaderSignalled || s.loaderBusy then s
    else s.(loaderSignalled := false, loading := s.nextIndex, swapWasRequested := s.swapRequested, loaderBusy := true)
  }

  /**
   * The loader's load and second critical section. On failure only the next
   * index and the busy flag change; on success the back buffer waits for its
   * prefetch and the swap request is kept.
   */
  function LoaderFinish(s: Pipeline, stage: LoadStage): (r: Pipeline)
    ensures !s.loaderBusy ==> r == s
    ensures !r.loaderBusy && r.loaderSignalled == s.loaderSignalled && r.front == s.front && r.paused == s.paused
    ensures s.loaderBusy && Load(s.back, s.loading, s.count, stage).err != Ok ==>
      r.nextIndex == Next(s.loading, s.count) && r.swapRequested == s.swapRequested
    ensures s.loaderBusy && s.loading < s.count && Load(s.back, s.loading, s.count, stage).err != Ok ==>
      !r.back.prefetchPending && !r.back.ready && !r.back.hasDecoder
    ensures s.loaderBusy && Load(s.back, s.loading, s.count, stage).err == Ok ==>
      r.back.prefetchPending && !r.back.ready && r.back.assetIndex == s.loading &&
      r.swapRequested == (s.swapRequested || s.swapWasRequested) && r.nextIndex == s.nextIndex
  {
    if !s.loaderBusy then s
    else
      var l := Load(s.back, s.loading, s.count, stage);
      if l.err != Ok then
        s.(back := l.buf, nextIndex := Next(s.loading, s.count), loaderBusy := false)
      else
        s.(back := l.buf.(prefetchPending := true, ready := false),
           swapRequested := s.swapRequested || s.swapWasRequested,
           loaderBusy := false)
  }

  /** swap_buffers. */
  function Swap(s: Pipeline): (r: Pipeline)
    ensures r.front == s.back && r.back.assetIndex == s.front.assetIndex && r.back.hasDecoder == s.front.hasDecoder
    ensures !r.back.ready && !r.back.firstFrameReady && !r.back.prefetchPending && !r.swapRequested
    ensures r.nextIndex == s.nextIndex && r.loaderBusy == s.loaderBusy && r.paused == s.paused
  {
    s.(front := s.back,
       back := s.front.(ready := false, firstFrameReady := false, prefetchPending := false),
       swapRequested := false)
  }

  /** pdMS_TO_TICKS. */
  function MsToTicks(ms: int, hz: nat): int
  {
    (ms * hz) / 1000
  }

  /**
   * The residual wait before the frame is sent to the panel: what is left of
   * the previous frame's delay after the time spent rendering, rounded to the
   * nearest millisecond.
   */
  function PacingTicks(startUs: int, nowUs: int, prevDelayMs: nat, hz: nat): int
  {
    var processing := nowUs - startUs;
    var target := prevDelayMs * 1000;
    if processing < target then
      var residual := target - processing;
      var ticks := MsToTicks((residual + 500) / 1000, hz);
      if ticks > 0 then ticks else 0
    else 0
  }

  /** The pacing waits only when rendering took less than the previous frame's delay. */
  lemma PacingOnlyWhenEarly(startUs: int, nowUs: int, prevDelayMs: nat, hz: nat)
    ensures PacingTicks(startUs, nowUs, prevDelayMs, hz) >= 0
    ensures PacingTicks(startUs, nowUs, prevDelayMs, hz) > 0 ==> nowUs - startUs < prevDelayMs * 1000
  {
  }

  /**
   * With a 1 kHz tick, render time plus wait equals the previous frame's
   * delay to within half a millisecond.
   */
  lemma PacingCompletesPeriod(startUs: int, nowUs: int, prevDelayMs: nat)
    requires 0 <= nowUs - startUs < prevDelayMs * 1000
    ensures var wait := PacingTicks(startUs, nowUs, prevDelayMs, 1000);
      prevDelayMs * 1000 - 500 < (nowUs - startUs) + wait * 1000 <= prevDelayMs * 1000 + 500
  {
    var residual := prevDelayMs * 1000 - (nowUs - startUs);
    var ms := (residual + 500) / 1000;
    assert MsToTicks(ms, 1000) == ms;
    assert ms * 1000 <= residual + 500 < ms * 1000 + 1000;
  }

  /** The clock readings and decoder reports one render-loop iteration sees. */
  datatype RenderInputs = RenderInputs(
    prefetch: Err,                // decode_next inside prefetch_first_frame
    prefetchDelay: Option<nat>,   // get_frame_delay inside prefetch_first_frame
    frame: FrameDecode,           // the decoder inside render_next_frame
    startUs: int,                 // esp_timer_get_time when rendering starts
    nowUs: int                    // esp_timer_get_time before the panel draw
  )

  /** What one iteration shows and how long it waits. */
  datatype Tick = Tick(
    shown: Shown,
    frameDelay: int,     // frame_delay_ms
    displayed: nat,      // index of the LCD buffer sent to the panel
    pacingTicks: int,    // the residual wait before the draw (0: none)
    trailingTicks: int   // the delay at the end of the iteration
  )

  datatype StepResult = StepResult(s: Pipeline, tick: Tick)

  function BufferSlots(cfg: Config): nat
  {
    if cfg.bufferCount == 0 then 1 else cfg.bufferCount
  }

  /** The prefetch part of a render-loop iteration: the back buffer becomes ready even if the prefetch fails. */
  function PrefetchStep(s: Pipeline, inp: RenderInputs): (r: Pipeline)
    ensures r == s.(back := r.back) && !r.back.prefetchPending
    ensures s.back.prefetchPending ==> r.back.ready && r.back.assetIndex == s.back.assetIndex
    ensures !s.back.prefetchPending ==> r == s
  {
    if s.back.prefetchPending then
      var p := PrefetchFirstFrame(s.back, inp.prefetch, inp.prefetchDelay);
      s.(back := p.buf.(prefetchPending := false, ready := true))
    else s
  }

  /** The swap part of a render-loop iteration. */
  function SwapStep(s: Pipeline): (r: Pipeline)
    ensures r == s.(front := r.front, back := r.back, swapRequested := r.swapRequested, usePrefetched := r.usePrefetched)
    ensures !r.back.prefetchPending || r == s
    ensures s.swapRequested && s.back.ready ==> r.front == s.back && !r.swapRequested && r.usePrefetched
  {
    if s.swapRequested && s.back.ready then Swap(s).(usePrefetched := true) else s
  }

  /** The render, bookkeeping and pacing part of a render-loop iteration. */
  function PresentStep(s: Pipeline, inp: RenderInputs): (r: StepResult)
    ensures r.s == s.(front := r.s.front, usePrefetched := r.s.usePrefetched, targetDelay := r.s.targetDelay,
                      lastDisplay := r.s.lastDisplay, renderIndex := r.s.renderIndex)
    ensures r.tick.trailingTicks >= 1 && r.s.front.ready == s.front.ready && r.s.front.assetIndex == s.front.assetIndex
    ensures r.tick.shown != NotRendered ==> r.s.targetDelay == r.tick.frameDelay
  {
    if !s.paused && s.front.ready then PresentFrame(s, inp) else PresentIdle(s)
  }

  /** Rendering one frame: its delay becomes the target, and the next LCD buffer is drawn into next time. */
  function PresentFrame(s: Pipeline, inp: RenderInputs): StepResult
  {
    var prev := s.targetDelay;
    var slots := BufferSlots(s.cfg);
    var f := RenderNextFrame(s.front, s.usePrefetched, inp.frame);
    var delay := if f.delay < 0 then 1 else f.delay;
    var pacing := if s.cfg.maxSpeed then 0 else PacingTicks(inp.startUs, inp.nowUs, prev, s.cfg.tickRateHz);
    StepResult(
      s.(front := f.buf, usePrefetched := false, targetDelay := delay,
         lastDisplay := s.renderIndex, renderIndex := (s.renderIndex + 1) % slots),
      Tick(f.shown, delay, s.renderIndex, pacing, 1))
  }

  /** Nothing to render (paused, or no animation ready): the last buffer is shown again after a short wait. */
  function PresentIdle(s: Pipeline): StepResult
  {
    var slots := BufferSlots(s.cfg);
    var reuse := if s.lastDisplay >= slots then 0 else s.lastDisplay;
    var trailing := if s.paused then MsToTicks(50, s.cfg.tickRateHz) else 1;
    assert trailing >= 0;
    StepResult(s.(targetDelay := 50), Tick(NotRendered, 50, reuse, 0, if trailing == 0 then 1 else trailing))
  }

  /** One iteration of lcd_animation_task. */
  function RenderStep(s: Pipeline, inp: RenderInputs): (r: StepResult)
    ensures r.s.count == s.count && r.s.nextIndex == s.nextIndex && r.s.loaderBusy == s.loaderBusy
    ensures r.s.loaderSignalled == s.loaderSignalled && r.s.paused == s.paused && r.s.loading == s.loading
    ensures !r.s.back.prefetchPending
    ensures r.tick.trailingTicks >= 1
  {
    var p := PrefetchStep(s, inp);
    var w := SwapStep(p);
    assert !w.back.prefetchPending;
    PresentStep(SwapStep(PrefetchStep(s, inp)), inp)
  }

  /** animation_player_set_paused. */
  function SetPaused(s: Pipeline, p: bool): Pipeline
  {
    s.(paused := p)
  }

  /** animation_player_toggle_pause. */
  function TogglePause(s: Pipeline): Pipeline
  {
    s.(paused := !s.paused)
  }

  /** Toggling twice restores the pause state; set is idempotent. */
  lemma PauseLaws(s: Pipeline, p: bool)
    ensures TogglePause(TogglePause(s)) == s
    ensures SetPaused(SetPaused(s, p), p) == SetPaused(s, p)
    ensures TogglePause(s).paused != s.paused
  {
  }

  /** The pause state an idle render loop keeps: a paused player shows the last buffer again, every 50 ms. */
  lemma PausedShowsLastFrame(s: Pipeline, inp: RenderInputs)
    requires s.paused && !s.back.prefetchPending && !(s.swapRequested && s.back.ready)
    ensures RenderStep(s, inp).tick.shown == NotRendered
    ensures RenderStep(s, inp).s.front == s.front && RenderStep(s, inp).s.targetDelay == 50
    ensures RenderStep(s, inp).tick.displayed == (if s.lastDisplay >= BufferSlots(s.cfg) then 0 else s.lastDisplay)
  {
  }

  /**
   * The pacing of a frame is measured against the delay of the frame before
   * it, even across a swap: after one rendered frame, the next iteration's
   * wait uses that frame's delay.
   */
  lemma PacingUsesPreviousDelay(s: Pipeline, in1: RenderInputs, in2: RenderInputs)
    requires !s.paused && !s.cfg.maxSpeed
    requires RenderStep(s, in1).tick.shown != NotRendered
    requires RenderStep(RenderStep(s, in1).s, in2).tick.shown != NotRendered
    ensures RenderStep(RenderStep(s, in1).s, in2).tick.pacingTicks ==
      PacingTicks(in2.startUs, in2.nowUs, RenderStep(s, in1).tick.frameDelay as nat, s.cfg.tickRateHz)
  {
    var r1 := RenderStep(s, in1);
    assert r1.s.targetDelay == r1.tick.frameDelay;
  }

  /**
   * A failed prefetch still marks the back buffer ready, so a pending swap
   * happens; the new front has no prefetched frame and its first render decodes.
   */
  lemma FailedPrefetchStillSwaps(s: Pipeline, inp: RenderInputs)
    requires s.back.prefetchPending && s.swapRequested && !s.back.firstFrameReady
    requires PrefetchFirstFrame(s.back, inp.prefetch, inp.prefetchDelay).err != Ok
    ensures var t := SwapStep(PrefetchStep(s, inp));
      t.front.ready && !t.front.firstFrameReady && t.front.assetIndex == s.back.assetIndex && !t.swapRequested &&
      RenderNextFrame(t.front, t.usePrefetched, inp.frame).shown != Prefetched
  {
  }

  // ---------------------------------------------------------------------
  // A load failure stops cycling for good
  // ---------------------------------------------------------------------

  /** Everything the pipeline can do, as one step of its interleaving. */
  datatype Op =
    | CycleOp(forward: bool)
    | RandomOp(pick: nat)
    | LoaderBeginOp
    | LoaderFinishOp(stage: LoadStage)
    | RenderOp(inp: RenderInputs)
    | SetPausedOp(p: bool)
    | TogglePauseOp

  function Apply(s: Pipeline, op: Op): Pipeline
  {
    match op
    case CycleOp(f) => Cycle(s, f)
    case RandomOp(t) => if RandomPickAllowed(s, t) then CycleToRandom(s, t) else s
    case LoaderBeginOp => LoaderBegin(s)
    case LoaderFinishOp(stage) => LoaderFinish(s, stage)
    case RenderOp(inp) => RenderStep(s, inp).s
    case SetPausedOp(p) => SetPaused(s, p)
    case TogglePauseOp => TogglePause(s)
  }

  function Run(s: Pipeline, ops: seq<Op>): Pipeline
    decreases |ops|
  {
    if ops == [] then s else Run(Apply(s, ops[0]), ops[1..])
  }

  /**
   * A swap is requested but nothing can complete it: the loader is idle and
   * not signalled, and the back buffer is neither ready nor waiting for its
   * prefetch.
   */
  predicate CyclingBlocked(s: Pipeline)
  {
    s.swapRequested && !s.loaderSignalled && !s.loaderBusy && !s.back.prefetchPending && !s.back.ready
  }

  lemma BlockedStepStaysBlocked(s: Pipeline, op: Op)
    requires CyclingBlocked(s)
    ensures CyclingBlocked(Apply(s, op)) && Apply(s, op).front.assetIndex == s.front.assetIndex
    ensures op.CycleOp? || op.RandomOp? ==> Apply(s, op) == s
  {
    if op.RenderOp? {
      assert PrefetchStep(s, op.inp) == s;
      assert SwapStep(s) == s;
    }
  }

  /** Once blocked, no interleaving of requests, loader steps and renders changes the animation again. */
  lemma {:induction false} BlockedForever(s: Pipeline, ops: seq<Op>)
    requires CyclingBlocked(s)
    ensures CyclingBlocked(Run(s, ops)) && Run(s, ops).front.assetIndex == s.front.assetIndex
    decreases |ops|
  {
    if ops != [] {
      BlockedStepStaysBlocked(s, ops[0]);
      BlockedForever(Apply(s, ops[0]), ops[1..]);
    }
  }

  /** A cycle request whose load fails leaves the player blocked. */
  lemma LoadFailureBlocksCycling(s: Pipeline, forward: bool, stage: LoadStage)
    requires s.count > 0 && !Busy(s) && !s.loaderSignalled && !s.back.ready && Current(s) < s.count
    requires stage != Loads
    ensures CyclingBlocked(LoaderFinish(LoaderBegin(Cycle(s, forward)), stage))
  {
    var t := LoaderBegin(Cycle(s, forward));
    assert t.loaderBusy && t.loading < s.count && !t.back.ready;
    assert Load(t.back, t.loading, t.count, stage).err != Ok;
  }

  /**
   * The loader's second half with a retry, as its own comment intends:
   * after a failure it signals itself again so that the next entry is tried.
   */
  function LoaderFinishRetrying(s: Pipeline, stage: LoadStage): (r: Pipeline)
    ensures !s.loaderBusy ==> r == s
    ensures s.loaderBusy && Load(s.back, s.loading, s.count, stage).err != Ok ==>
      r.loaderSignalled && !r.loaderBusy && r.nextIndex == Next(s.loading, s.count) && r.swapRequested == s.swapRequested
    ensures s.loaderBusy && Load(s.back, s.loading, s.count, stage).err == Ok ==> r == LoaderFinish(s, stage)
  {
    var r := LoaderFinish(s, stage);
    if s.loaderBusy && Load(s.back, s.loading, s.count, stage).err != Ok then r.(loaderSignalled := true) else r
  }

  /** One load attempt with retrying: the loader wakes, loads, and on failure wakes itself again. */
  function Attempt(s: Pipeline, stage: LoadStage): Pipeline
  {
    LoaderFinishRetrying(LoaderBegin(s), stage)
  }

  function Attempts(s: Pipeline, stages: seq<LoadStage>): Pipeline
    decreases |stages|
  {
    if stages == [] then s else Attempts(Attempt(s, stages[0]), stages[1..])
  }

  /** The state between requests: a signalled loader about to try nextIndex, no prefetch waiting. */
  predicate Retrying(s: Pipeline)
  {
    s.loaderSignalled && !s.loaderBusy && s.swapRequested && !s.back.prefetchPending && !s.back.ready && s.nextIndex < s.count
  }

  /**
   * With retrying, k failed loads walk k entries down the playlist and leave
   * the loader signalled, so the request is still alive.
   */
  lemma {:induction false} RetryWalksPlaylist(s: Pipeline, stages: seq<LoadStage>)
    requires Retrying(s)
    requires forall i :: 0 <= i < |stages| ==> stages[i] != Loads
    ensures Retrying(Attempts(s, stages))
    ensures Attempts(s, stages).nextIndex == StepsForward(s.nextIndex, s.count, |stages|)
    ensures Attempts(s, stages).front == s.front
    decreases |stages|
  {
    if stages != [] {
      var t := Attempt(s, stages[0]);
      assert Load(LoaderBegin(s).back, s.nextIndex, s.count, stages[0]).err != Ok;
      assert t.nextIndex == Next(s.nextIndex, s.count);
      RetryWalksPlaylist(t, stages[1..]);
      StepsForwardShift(s.nextIndex, s.count, |stages| - 1);
    }
  }

  lemma {:induction false} StepsForwardShift(i: nat, n: nat, k: nat)
    ensures StepsForward(Next(i, n), n, k) == StepsForward(i, n, k + 1)
  {
    if k > 0 {
      StepsForwardShift(i, n, k - 1);
    }
  }

  /**
   * With retrying, the first entry that loads is swapped in by the next
   * render-loop iteration: k failures followed by a success show the entry
   * k steps after the requested one.
   */
  lemma RetryEventuallySwaps(s: Pipeline, failures: seq<LoadStage>, inp: RenderInputs)
    requires Retrying(s)
    requires forall i :: 0 <= i < |failures| ==> failures[i] != Loads
    ensures var t := Attempt(Attempts(s, failures), Loads);
      RenderStep(t, inp).s.front.assetIndex == StepsForward(s.nextIndex, s.count, |failures|) &&
      RenderStep(t, inp).s.front.ready && !RenderStep(t, inp).s.swapRequested
  {
    RetryWalksPlaylist(s, failures);
    var a := Attempts(s, failures);
    var t := Attempt(a, Loads);
    assert t.back.prefetchPending && t.swapRequested && t.back.assetIndex == a.nextIndex;
    var p := PrefetchStep(t, inp);
    assert p.back.ready && p.swapRequested && p.back.assetIndex == a.nextIndex;
  }

  // ---------------------------------------------------------------------
  // Start-up
  // ---------------------------------------------------------------------

  /**
   * The start-up load of animation_player_init: the random start index first,
   * then every other index in order until one loads. stages[i] is how loading
   * entry i ends.
   */
  method ChooseStartIndex(count: nat, start: nat, stages: seq<LoadStage>) returns (err: Err, index: nat)
    requires start < count || count == 0
    requires |stages| == count
    ensures err == Ok <==> exists i :: 0 <= i < count && stages[i] == Loads
    ensures err == Ok ==> index < count && stages[index] == Loads
    ensures err == Ok && stages[start] == Loads ==> index == start
    ensures err == Ok && index != start ==> forall j :: 0 <= j < index && j != start ==> stages[j] != Loads
  {
    var r := Load(Zeroed, start, count, if count == 0 then Loads else stages[start]);
    err := r.err;
    index := start;
    if err == Ok {
      return;
    }
    var i := 0;
    while i < count
      invariant 0 <= i <= count
      invariant err != Ok
      invariant count > 0 ==> stages[start] != Loads
      invariant forall j :: 0 <= j < i ==> stages[j] != Loads
    {
      if i != start {
        r := Load(Zeroed, i, count, stages[i]);
        err := r.err;
        if err == Ok {
          index := i;
          return;
        }
      }
      i := i + 1;
    }
  }

  /** The pipeline right after a successful start-up with entry start in the front buffer. */
  function Initial(count: nat, cfg: Config, start: nat, prefetch: Err, prefetchDelay: Option<nat>): Pipeline
  {
    var loaded := Load(Zeroed, start, count, Loads).buf;
    var front := PrefetchFirstFrame(loaded, prefetch, prefetchDelay).buf.(ready := true, prefetchPending := false);
    Pipeline(front, Zeroed, count, 0, false, false, false, false, 0, false, false, 16, 0, 0, cfg)
  }

  /** The player starts idle, showing its start entry, and ready to take a cycle request. */
  lemma InitialIsIdle(count: nat, cfg: Config, start: nat, prefetch: Err, prefetchDelay: Option<nat>)
    requires start < count
    ensures var s := Initial(count, cfg, start, prefetch, prefetchDelay);
      !Busy(s) && !s.loaderSignalled && s.front.ready && Current(s) == start && !s.back.ready && !s.paused
  {
  }

  /**
   * A cycle request that loads, with the loader and the render loop each
   * taking their turn, ends with the requested neighbour on screen and the
   * player idle again.
   */
  lemma CycleCompletes(s: Pipeline, forward: bool, inp: RenderInputs)
    requires s.count > 0 && !Busy(s) && !s.loaderSignalled && !s.back.ready && s.front.ready && s.front.assetIndex < s.count
    ensures var t := RenderStep(LoaderFinish(LoaderBegin(Cycle(s, forward)), Loads), inp).s;
      t.front.ready && !Busy(t) && !t.loaderSignalled && !t.back.ready &&
      t.front.assetIndex == (if forward then Next(s.front.assetIndex, s.count) else Prev(s.front.assetIndex, s.count))
  {
    var c := Cycle(s, forward);
    var f := LoaderFinish(LoaderBegin(c), Loads);
    assert f.back.prefetchPending && f.swapRequested && f.back.assetIndex == c.nextIndex;
    var p := PrefetchStep(f, inp);
    assert p.back.ready && p.swapRequested;
  }

  /** count completed forward cycles bring the first animation back. */
  lemma {:induction false} ForwardCyclesReturn(s: Pipeline, k: nat, inputs: seq<RenderInputs>)
    requires s.count > 0 && !Busy(s) && !s.loaderSignalled && !s.back.ready && s.front.ready && s.front.assetIndex < s.count
    requires |inputs| == k
    ensures var t := ForwardCycles(s, inputs);
      t.front.ready && t.front.assetIndex == StepsForward(s.front.assetIndex, s.count, k)
    decreases k
  {
    if k > 0 {
      CycleCompletes(s, true, inputs[0]);
      var t := RenderStep(LoaderFinish(LoaderBegin(Cycle(s, true)), Loads), inputs[0]).s;
      ForwardCyclesReturn(t, k - 1, inputs[1..]);
      StepsForwardShift(s.front.assetIndex, s.count, k - 1);
    }
  }

  /** Completes one forward cycle per render input. */
  function ForwardCycles(s: Pipeline, inputs: seq<RenderInputs>): Pipeline
    decreases |inputs|
  {
    if inputs == [] then s
    else ForwardCycles(RenderStep(LoaderFinish(LoaderBegin(Cycle(s, true)), Loads), inputs[0]).s, inputs[1..])
  }

  lemma FullPlaylistTurn(s: Pipeline, inputs: seq<RenderInputs>)
    requires s.count > 0 && !Busy(s) && !s.loaderSignalled && !s.back.ready && s.front.ready && s.front.assetIndex < s.count
    requires |inputs| == s.count
    ensures ForwardCycles(s, inputs).front.assetIndex == s.front.assetIndex
  {
    ForwardCyclesReturn(s, s.count, inputs);
    FullTurnReturns(s.front.assetIndex, s.count);
  }

  // ---------------------------------------------------------------------
  // The player object
  // ---------------------------------------------------------------------

  /** The player's static state, updated in place by the public API and the two tasks. */
  class Player {
    var front: Buffer
    var back: Buffer
    const count: nat
    var nextIndex: nat
    var swapRequested: bool
    var loaderBusy: bool
    var loaderSignalled: bool
    var paused: bool
    var loading: nat
    var swapWasRequested: bool
    var usePrefetched: bool
    var targetDelay: nat
    var renderIndex: nat
    var lastDisplay: nat
    const cfg: Config

    function State(): Pipeline
      reads this
    {
      Pipeline(front, back, count, nextIndex, swapRequested, loaderBusy, loaderSignalled, paused,
               loading, swapWasRequested, usePrefetched, targetDelay, renderIndex, lastDisplay, cfg)
    }

    /** The tail of animation_player_init once entry start has loaded into the front buffer. */
    constructor (count: nat, cfg: Config, start: nat, prefetch: Err, prefetchDelay: Option<nat>)
      ensures State() == Initial(count, cfg, start, prefetch, prefetchDelay)
    {
      var loaded := Load(Zeroed, start, count, Loads).buf;
      var p := PrefetchFirstFrame(loaded, prefetch, prefetchDelay);
      front := p.buf.(ready := true, prefetchPending := false);
      back := Zeroed;
      this.count := count;
      nextIndex := 0;
      swapRequested := false;
      loaderBusy := false;
      loaderSignalled := false;
      paused := false;
      loading := 0;
      swapWasRequested := false;
      usePrefetched := false;
      targetDelay := 16;
      renderIndex := 0;
      lastDisplay := 0;
      this.cfg := cfg;
    }

    /** animation_player_cycle_animation. */
    method CycleAnimation(forward: bool)
      modifies this
      ensures State() == Cycle(old(State()), forward)
    {
      if count == 0 {
        return;
      }
      if swapRequested || loaderBusy || back.prefetchPending {
        return;
      }
      var current := if front.ready then front.assetIndex else 0;
      var target := if forward then Next(current, count) else Prev(current, count);
      nextIndex := target;
      swapRequested := true;
      loaderSignalled := true;
    }

    /** animation_player_cycle_to_random; the random draw loop is a nondeterministic choice. */
    method CycleToRandomEntry() returns (target: nat)
      modifies this
      ensures RandomPickAllowed(old(State()), target)
      ensures State() == CycleToRandom(old(State()), target)
    {
      var current := if front.ready then front.assetIndex else 0;
      if count <= 1 {
        target := 0;
      } else {
        target := if current == 0 then 1 else 0;
        target :| target < count && target != current;
      }
      if count == 0 || swapRequested || loaderBusy || back.prefetchPending {
        return;
      }
      nextIndex := target;
      swapRequested := true;
      loaderSignalled := true;
    }

    /** The loader task up to the load: wait for the signal, read the target, mark busy. */
    method LoaderTake()
      modifies this
      ensures State() == LoaderBegin(old(State()))
    {
      if !loaderSignalled || loaderBusy {
        return;
      }
      loaderSignalled := false;
      loading := nextIndex;
      swapWasRequested := swapRequested;
      loaderBusy := true;
    }

    /** The loader task from the load on. */
    method LoaderComplete(stage: LoadStage)
      modifies this
      ensures State() == LoaderFinish(old(State()), stage)
    {
      if !loaderBusy {
        return;
      }
      var l := Load(back, loading, count, stage);
      back := l.buf;
      if l.err != Ok {
        nextIndex := Next(loading, count);
        loaderBusy := false;
        return;
      }
      back := back.(prefetchPending := true, ready := false);
      if swapWasRequested {
        swapRequested := true;
      }
      loaderBusy := false;
    }

    /** The loader task from the load on, with the retry its failure branch is meant to have. */
    method LoaderCompleteRetrying(stage: LoadStage)
      modifies this
      ensures State() == LoaderFinishRetrying(old(State()), stage)
    {
      var failed := loaderBusy && Load(back, loading, count, stage).err != Ok;
      LoaderComplete(stage);
      if failed {
        loaderSignalled := true;
      }
    }

    /** swap_buffers. */
    method SwapBuffers()
      modifies this
      ensures State() == Swap(old(State()))
    {
      var temp := front;
      front := back;
      back := temp;
      swapRequested := false;
      back := back.(ready := false, firstFrameReady := false, prefetchPending := false);
    }

    /** The render loop's prefetch of a freshly loaded back buffer. */
    method PrefetchIfPending(inp: RenderInputs)
      modifies this
      ensures State() == PrefetchStep(old(State()), inp)
    {
      if back.prefetchPending {
        var p := PrefetchFirstFrame(back, inp.prefetch, inp.prefetchDelay);
        back := p.buf.(prefetchPending := false, ready := true);
      }
    }

    /** The render loop's swap once the back buffer is ready. */
    method SwapIfReady()
      modifies this
      ensures State() == SwapStep(old(State()))
    {
      if swapRequested && back.ready {
        SwapBuffers();
        usePrefetched := true;
      }
    }

    /** The render loop's frame, bookkeeping and pacing. */
    method Present(inp: RenderInputs) returns (tick: Tick)
      modifies this
      ensures State() == PresentStep(old(State()), inp).s
      ensures tick == PresentStep(old(State()), inp).tick
    {
      if !paused && front.ready {
        tick := RenderFrame(inp);
      } else {
        tick := ShowLast();
      }
    }

    /** The branch of the render loop that renders a frame. */
    method RenderFrame(inp: RenderInputs) returns (tick: Tick)
      requires !paused && front.ready
      modifies this
      ensures State() == PresentFrame(old(State()), inp).s
      ensures tick == PresentFrame(old(State()), inp).tick
    {
      var prev := targetDelay;
      var slots := if cfg.bufferCount == 0 then 1 else cfg.bufferCount;
      var f := RenderNextFrame(front, usePrefetched, inp.frame);
      front := f.buf;
      usePrefetched := false;
      var delay := if f.delay < 0 then 1 else f.delay;
      targetDelay := delay;
      var shownIndex := renderIndex;
      lastDisplay := renderIndex;
      renderIndex := (renderIndex + 1) % slots;
      var pacing := 0;
      if !cfg.maxSpeed {
        pacing := PacingTicks(inp.startUs, inp.nowUs, prev, cfg.tickRateHz);
      }
      tick := Tick(f.shown, delay, shownIndex, pacing, 1);
    }

    /** The branch of the render loop that shows the last buffer again. */
    method ShowLast() returns (tick: Tick)
      modifies this
      ensures State() == PresentIdle(old(State())).s
      ensures tick == PresentIdle(old(State())).tick
    {
      var slots := if cfg.bufferCount == 0 then 1 else cfg.bufferCount;
      var reuse := lastDisplay;
      if reuse >= slots {
        reuse := 0;
      }
      targetDelay := 50;
      var trailing := if paused then MsToTicks(50, cfg.tickRateHz) else 1;
      if trailing == 0 {
        trailing := 1;
      }
      tick := Tick(NotRendered, 50, reuse, 0, trailing);
    }

    /** One iteration of lcd_animation_task. */
    method RenderIteration(inp: RenderInputs) returns (tick: Tick)
      modifies this
      ensures State() == RenderStep(old(State()), inp).s
      ensures tick == RenderStep(old(State()), inp).tick
    {
      PrefetchIfPending(inp);
      SwapIfReady();
      tick := Present(inp);
    }

    /** animation_player_set_paused. */
    method SetPausedTo(p: bool)
      modifies this
      ensures State() == SetPaused(old(State()), p)
    {
      paused := p;
    }

    /** animation_player_toggle_pause. */
    method Toggle()
      modifies this
      ensures State() == TogglePause(old(State()))
    {
      paused := !paused;
    }

    /** animation_player_is_paused. */
    method IsPaused() returns (p: bool)
      ensures p == paused
    {
      p := paused;
    }
  }
}
