# tdESP32display animation player — a Dafny model

This project models the firmware that plays animated WebP and GIF files from an SD card on an
ESP32-P4 LCD. It also covers the components around the player that take control input:

- the touch panel;
- the HTTP control API and its command worker;
- the application state;
- the persistent JSON configuration;
- the Wi-Fi station's captive portal.

Modules, one file each:

- `AnimationPlayer` (player.dfy) models the double-buffered playback pipeline. It has a front buffer (the
  animation on screen), a back buffer (the next one), a pending target index, a swap request
  flag, a loader busy flag and a pause flag. Each step is modelled as an atomic transition over one record:
  - `cycle` and `cycle_to_random`;
  - the loader task's two critical sections, with its success and failure branches;
  - the render loop's prefetch, swap, frame render and frame pacing;
  - `unload_animation_buffer`;
  - the pause operations.

  The `Player` class holds that state and performs each transition in place. The random pick, the clock, the
  SD card and the decoders are inputs.
- `Upscale` (upscale.dfy) covers the pixel data path:
  - the `rgb565` packer;
  - the nearest-neighbour lookup tables from LCD to canvas coordinates;
  - the row blit from the RGBA canvas into the LCD frame buffer, with two row ranges that together cover the screen.
- `TextOverlay` (text.dfy) covers the width arithmetic of the frame-duration overlay.
- `Playlist` (playlist.dfy) covers finding the animations directory by preorder search over a directory tree, and the
  enumeration that filters, classifies and sorts the file names.
- `AnimationDecoder` (decoder.dfy) covers the type-tag dispatcher. `WebpDecoder` (webp.dfy) and `GifDecoder` (gif.dfy) are the
  two adapters it routes to: WebP timing from cumulative timestamps, and GIF palette compositing with
  transparent carry-over from the previous frame. `PngDecoder` (png.dfy) and `JpegDecoder`
  (jpeg.dfy) are the still-image adapters, modelled standalone because the dispatcher does not route
  their type tags. Each foreign decoding library is an oracle whose answers are parameters.
- `Lcd` (lcd.dfy) covers the frame-buffer row-stride derivation and the cycle forwarding wrappers. `Touch` (touch.dfy)
  covers press-edge detection.
- `AppState` (appstate.dfy), `ConfigStore` (config.dfy) over an abstract key/value store, and `HttpApi` (httpapi.dfy) cover:
  - status strings, the content-type check and the chunked body receive;
  - the bounded command queue;
  - the handlers' decision order and the worker.
- `WifiStation` (wifi.dfy) covers `url_decode`, the form-field extraction, and the reconnect retry counter.

Pure logic is written as functions with lemmas about it. Code that updates state in place is written as
classes and methods whose `ensures` ties the new state to those functions.

The loader's failure branch is commented "Try next animation" (main/animation_player.c:606), but it
does not retry (604-613). The model follows the code; the retrying loader is the corrected member of
the first finding below.

## Model

| member | source | states |
|---|---|---|
| AnimationPlayer.Next | main/animation_player.c:1192-1198 | the next index is 0 for an empty playlist and otherwise lies inside the playlist |
| AnimationPlayer.Prev | main/animation_player.c:1201-1207 | the previous index is 0 for an empty playlist and otherwise lies inside the playlist |
| AnimationPlayer.PrevNextInverse | main/animation_player.c:1192-1207 | stepping forward then back, or back then forward, returns to the same index |
| AnimationPlayer.IndexWraps | main/animation_player.c:1192-1207 | the last index steps forward to 0 and 0 steps back to the last index |
| AnimationPlayer.StepsForwardIsAddition | main/animation_player.c:1192-1198 | k forward steps from i land on (i + k) mod n |
| AnimationPlayer.FullTurnReturns | main/animation_player.c:1192-1198 | n forward steps through n entries come back to the start |
| AnimationPlayer.InitDecoderForBuffer | main/animation_player.c:1230-1316 | decoder set-up succeeds unless the decoder or a lookup table fails; a decoder failure keeps the file and releases nothing; a lookup-table failure unloads the buffer and so releases the file once |
| AnimationPlayer.Load | main/animation_player.c:1319-1390 | the load succeeds exactly when the index is in range and every stage succeeds; an out-of-range index leaves the buffer alone; a success leaves a decoder and a prefetch frame for that index with no prefetch done yet; a failure leaves no decoder and no file, and the buffer is never ready after an in-range load |
| AnimationPlayer.LookupFailureDoubleRelease | main/animation_player.c:1280-1292 | as written (LoadAsWritten), a failed lookup-table allocation releases the file bytes twice: once in unload_animation_buffer and once more by the caller at line 1370; on every other path the source agrees with the corrected Load |
| AnimationPlayer.LoadReleasesFileOnce | main/animation_player.c:1355-1381 | in the corrected model, every failure after the file was read releases it exactly once, and neither an early failure nor a success releases it |
| AnimationPlayer.PrefetchFirstFrame | main/animation_player.c:1393-1489 | the prefetch succeeds exactly when there is a decoder, a prefetch frame and frame 0 decodes; a success marks the frame ready with its delay (1 when the decoder reports none); a failure changes nothing; readiness, the pending flag and the index are never touched |
| AnimationPlayer.RenderNextFrame | main/animation_player.c:454-554 | a delay of -1 exactly when nothing was rendered, which leaves the buffer alone; the prefetched frame is shown exactly when asked for and available, once, with its stored delay; a decoded frame follows a successful decode or one successful retry after a reset, takes the decoder's delay (1 by default) and flips the native buffer |
| AnimationPlayer.PrefetchedFrameUsedOnce | main/animation_player.c:461-465 | after the prefetched frame is shown, the next render of the same buffer does not show it again |
| AnimationPlayer.EndOfSequenceRetriedOnce | main/animation_player.c:474-486 | at the end of the sequence, a frame is decoded exactly when the single retry after the reset succeeds |
| AnimationPlayer.UnloadedBufferIsInert | main/animation_player.c:1148-1189 | after unload_animation_buffer the buffer can neither be prefetched nor rendered |
| AnimationPlayer.Cycle | main/animation_player.c:1745-1778 | an empty playlist or a swap in progress drops the request unchanged; otherwise the target is the next or previous neighbour of the front's index (0 when the front is not ready), the swap is requested, the loader is signalled and the buffers are untouched |
| AnimationPlayer.RandomPickExists | main/animation_player.c:1799-1808 | the draw loop always has an allowed result, so it can end |
| AnimationPlayer.CycleToRandom | main/animation_player.c:1780-1824 | an empty playlist or a swap in progress drops the request; otherwise the drawn index is requested, it lies in the playlist, and with two or more entries it differs from the current one |
| AnimationPlayer.SecondRequestDropped | main/animation_player.c:1753-1758 | a second cycle request, forward, backward or random, made while the first is pending changes nothing |
| AnimationPlayer.LoaderBegin | main/animation_player.c:583-598 | the loader only acts when signalled and idle; it then takes the signal, remembers the target and the swap request, and marks itself busy |
| AnimationPlayer.LoaderFinish | main/animation_player.c:602-626 | a failed load moves the next index one step past the failed one and clears busy without signalling again; a successful one leaves the back buffer waiting for its prefetch and keeps the swap request |
| AnimationPlayer.Swap | main/animation_player.c:1210-1227 | the back buffer becomes the front, and the old front becomes a back buffer that is not ready, has no prefetched frame, has no prefetch pending and has no swap request |
| AnimationPlayer.PacingOnlyWhenEarly | main/animation_player.c:762-781 | the pacing wait is never negative, and it is positive only when rendering took less than the previous frame's delay |
| AnimationPlayer.PacingCompletesPeriod | main/animation_player.c:762-781 | with a 1 kHz tick, rendering time plus the wait equals the previous frame's delay to within half a millisecond |
| AnimationPlayer.PrefetchStep | main/animation_player.c:661-691 | a pending prefetch always ends with the back buffer ready, even when the prefetch fails; nothing else changes |
| AnimationPlayer.SwapStep | main/animation_player.c:693-700 | a requested swap of a ready back buffer happens and arms the prefetched frame; otherwise nothing changes |
| AnimationPlayer.PresentStep | main/animation_player.c:702-825 | only the front buffer, the render bookkeeping and the target delay change; a rendered frame's delay becomes the target; the trailing wait is at least one tick |
| AnimationPlayer.RenderStep | main/animation_player.c:642-826 | one iteration of the render loop leaves the playlist, the loader's state and the pause flag alone, leaves no prefetch pending and always waits at least one tick |
| AnimationPlayer.PauseLaws | main/animation_player.c:1710-1733 | toggling twice restores the pause flag, toggling always changes it, and setting is idempotent |
| AnimationPlayer.PausedShowsLastFrame | main/animation_player.c:743-753 | a paused player renders nothing and shows the last displayed LCD buffer again (buffer 0 if that index is out of range) with a 50 ms target |
| AnimationPlayer.PacingUsesPreviousDelay | main/animation_player.c:704-720 | the wait of a frame is measured against the delay of the frame rendered before it |
| AnimationPlayer.FailedPrefetchStillSwaps | main/animation_player.c:675-683 | a failed prefetch still lets the pending swap happen, and the new front then decodes its first frame instead of using a prefetched one |
| AnimationPlayer.BlockedStepStaysBlocked | main/animation_player.c:604-613 | in the blocked state, every operation leaves the state blocked with the same animation on screen, and cycle requests change nothing |
| AnimationPlayer.BlockedForever | main/animation_player.c:604-613 | once blocked, no sequence of requests, loader steps, renders or pause changes ever shows another animation |
| AnimationPlayer.LoadFailureBlocksCycling | main/animation_player.c:604-613 | a cycle request whose load fails leaves the player blocked: a swap is still requested, but the loader is neither signalled nor busy and the back buffer is not ready |
| AnimationPlayer.LoaderFinishRetrying | main/animation_player.c:604-613 | the corrected loader signals itself again after a failure, so the next entry is tried; a success is handled as before |
| AnimationPlayer.RetryWalksPlaylist | main/animation_player.c:604-613 | with the retry, k failed loads walk k entries forward and the request stays alive |
| AnimationPlayer.RetryEventuallySwaps | main/animation_player.c:604-626 | with the retry, k failures and then a success put the entry k steps past the requested one on screen at the next render |
| AnimationPlayer.ChooseStartIndex | main/animation_player.c:1584-1609 | start-up succeeds exactly when some entry loads; the random start wins if it loads; otherwise the first loading entry in order wins |
| AnimationPlayer.InitialIsIdle | main/animation_player.c:1665-1700 | after start-up the player shows its start entry, is not paused, has no swap in progress and has an empty back buffer |
| AnimationPlayer.CycleCompletes | main/animation_player.c:577-826 | a cycle request whose load succeeds puts the requested neighbour on screen after one loader pass and one render iteration, and leaves the player idle |
| AnimationPlayer.ForwardCyclesReturn | main/animation_player.c:1745-1778 | k completed forward cycles show the entry k steps ahead |
| AnimationPlayer.FullPlaylistTurn | main/animation_player.c:1745-1778 | count completed forward cycles bring the first animation back |
| AnimationPlayer.Player.constructor | main/animation_player.c:1665-1700 | the player starts in the state Initial describes |
| AnimationPlayer.Player.CycleAnimation | main/animation_player.c:1745-1778 | updates the shared state exactly as Cycle |
| AnimationPlayer.Player.CycleToRandomEntry | main/animation_player.c:1780-1824 | the draw loop ends with an allowed index, and the state changes exactly as CycleToRandom |
| AnimationPlayer.Player.LoaderTake | main/animation_player.c:583-598 | the state changes exactly as LoaderBegin |
| AnimationPlayer.Player.LoaderComplete | main/animation_player.c:602-626 | the state changes exactly as LoaderFinish |
| AnimationPlayer.Player.LoaderCompleteRetrying | main/animation_player.c:604-613 | the corrected loader: the state changes exactly as LoaderFinishRetrying, so a failed load wakes the loader again for the next entry |
| AnimationPlayer.Player.SwapBuffers | main/animation_player.c:1210-1227 | the state changes exactly as Swap |
| AnimationPlayer.Player.PrefetchIfPending | main/animation_player.c:661-691 | the state changes exactly as PrefetchStep |
| AnimationPlayer.Player.SwapIfReady | main/animation_player.c:693-700 | the state changes exactly as SwapStep |
| AnimationPlayer.Player.Present | main/animation_player.c:702-825 | the state and the iteration's output are those of PresentStep |
| AnimationPlayer.Player.RenderFrame | main/animation_player.c:706-742 | the render branch changes the state and gives the output PresentFrame describes |
| AnimationPlayer.Player.ShowLast | main/animation_player.c:743-753 | the idle branch changes the state and gives the output PresentIdle describes |
| AnimationPlayer.Player.RenderIteration | main/animation_player.c:642-826 | one iteration changes the state and gives the output RenderStep describes |
| AnimationPlayer.Player.SetPausedTo | main/animation_player.c:1710-1721 | only the pause flag changes, to the given value |
| AnimationPlayer.Player.Toggle | main/animation_player.c:1723-1733 | only the pause flag changes, to its negation |
| AnimationPlayer.Player.IsPaused | main/animation_player.c:1735-1743 | returns the pause flag |
| Upscale.Rgb565Fields | main/animation_player.c:170-175 | the packed word holds the top 5 bits of red in bits 15..11, the top 6 bits of green in bits 10..5 and the top 5 bits of blue in bits 4..0 |
| Upscale.BuildLookup | main/animation_player.c:1294-1310 | entry d of the table is floor(d * canvas / target), clamped to canvas - 1 and truncated to 16 bits |
| Upscale.LookupIsQuotient | main/animation_player.c:1294-1310 | for a canvas of 1 to 65535 pixels the clamp never fires and the entry is the plain quotient, below the canvas size |
| Upscale.LookupInRange | main/animation_player.c:1294-1310 | every entry is a valid canvas coordinate, and entry 0 is 0 |
| Upscale.LookupMonotone | main/animation_player.c:1294-1310 | the lookup table never decreases |
| Upscale.LookupCovers | main/animation_player.c:1294-1310 | when the canvas is no larger than the panel, every canvas coordinate is sampled by some panel coordinate |
| Upscale.PixelInBounds | main/animation_player.c:360-369 | the byte offset of the sampled RGBA pixel and its three colour bytes lie inside the canvas |
| Upscale.BlitRow565 | main/animation_player.c:364-370 | row y gets, in its first 2 * dstW bytes, the little-endian RGB565 word of each sampled pixel; every other byte of the frame is unchanged |
| Upscale.BlitRow888 | main/animation_player.c:371-382 | row y gets blue, green and red of each sampled pixel in each 3-byte slot that fits in the stride; every other byte is unchanged |
| Upscale.BlitRows | main/animation_player.c:342-385 | the row range is clamped to the panel; exactly the rows in it get their expected bytes in the written columns, and an invalid size or empty range writes nothing |
| Upscale.UpscaleFrame | main/animation_player.c:499-553 | the top-half and bottom-half blits together leave the frame exactly as one blit of every row would |
| Upscale.HalvesPartitionRows | main/animation_player.c:510-519 | the two worker row ranges are disjoint and together cover every row of the frame |
| TextOverlay.EffectiveScale | main/animation_player.c:230-232 | the scale used is at least 1, and a positive scale is kept |
| TextOverlay.CharPixelWidth | main/animation_player.c:228-243 | a digit or '-' advances a 5-unit glyph plus one unit, '.' and ',' two units, anything else three; no character advances less than two units |
| TextOverlay.TextWidthAppend | main/animation_player.c:313-323 | the width of two strings side by side is the sum of their widths |
| TextOverlay.TextWidthLowerBound | main/animation_player.c:313-323 | a string is at least two scale units wide per character |
| TextOverlay.DigitsWidth | main/animation_player.c:313-323 | a string of n digits is exactly 6 * scale * n pixels wide |
| TextOverlay.MeasureTextWidth | main/animation_player.c:313-323 | a non-positive scale measures 0; otherwise the result is the sum of the characters' advances |
| TextOverlay.GlyphPositions | main/animation_player.c:298-311 | character i is drawn at x plus the width of the characters before it |
| TextOverlay.ScaleNormalised | main/animation_player.c:303-305 | widths at any scale equal those at the scale the helpers fall back to |
| TextOverlay.TopRightX | main/animation_player.c:325-340 | the text starts at panel width minus margin minus text width, clamped to 0 |
| TextOverlay.RightAligned | main/animation_player.c:325-340 | a text that fits ends exactly margin pixels before the panel's right edge |
| Playlist.EqualIgnoringCaseAt | main/animation_player.c:853-856 | strcasecmp returning 0 means equal lengths and the same character after tolower at every position |
| Playlist.EndsWithIsSuffixCompare | main/animation_player.c:853-856 | a name ends in an extension exactly when it is at least that long and strcasecmp of its last characters against the extension is 0 |
| Playlist.ExtensionsExclusive | main/animation_player.c:850-860 | no name ends in both ".webp" and ".gif", so the order of the two tests in get_asset_type does not matter |
| Playlist.AssetTypeMatchesExtension | main/animation_player.c:850-860 | the asset type is GIF exactly when the name ends in ".gif" ignoring case, and a ".webp" name is WebP |
| Playlist.DirectoryHasAnimationFiles | main/animation_player.c:862-901 | true exactly when the directory opens and one of its listed regular files has an animation extension; "." and "..", over-long paths and failed stats are skipped |
| Playlist.Find | main/animation_player.c:903-954 | the search fails with ESP_FAIL exactly when the root does not open, and otherwise either finds a directory or reports not found |
| Playlist.SearchChildren | main/animation_player.c:926-953 | the scan of the subdirectories only ever fails with not found |
| Playlist.FindIsFirstCandidate | main/animation_player.c:903-954 | the search finds a directory exactly when some directory at or below the root holds animation files, and then returns the first one in preorder (the root before its subdirectories, subdirectories in readdir order) |
| Playlist.SearchIsFirstCandidate | main/animation_player.c:926-953 | the subdirectory scan from the i-th entry on finds the first qualifying directory among the remaining subtrees, and only when there is one |
| Playlist.StrLeTotal | main/animation_player.c:956-959 | any two names are comparable under strcmp |
| Playlist.StrLeAntisymmetric | main/animation_player.c:956-959 | two names each no greater than the other under strcmp are equal |
| Playlist.StrLeTransitive | main/animation_player.c:956-959 | strcmp order is transitive |
| Playlist.InsertKeepsElements | main/animation_player.c:1088 | inserting a name into the list adds exactly that name |
| Playlist.InsertSorted | main/animation_player.c:1088 | inserting into a sorted list keeps it sorted |
| Playlist.SortByNameCorrect | main/animation_player.c:1088 | the sorted playlist is in strcmp order and is a permutation of the collected names |
| Playlist.SortedIsUnique | main/animation_player.c:1088 | two sorted permutations of the same names are equal, so the playlist order does not depend on how qsort sorts |
| Playlist.SortedHeadIsLeast | main/animation_player.c:1088 | the first name of a sorted playlist comes no later than any name in it |
| Playlist.AnimationNamesFacts | main/animation_player.c:971-1004 | every collected name has an animation extension, and none is collected exactly when the directory holds no animation file |
| Playlist.FileList.constructor | main/animation_player.c:829-848 | the list starts empty and consistent, with no directory |
| Playlist.FileList.Free | main/animation_player.c:829-848 | the names, types and directory are released and count and current index return to 0 |
| Playlist.FileList.Enumerate | main/animation_player.c:961-1102 | after freeing the old list, succeeds exactly when the directory opens and holds an animation file; an unopenable directory gives ESP_FAIL; on failure the list is empty; on success the list is the directory's animation names in strcmp order, the index is 0, the directory is recorded and every type matches its name |
| Playlist.PlaylistOrdered | main/animation_player.c:1086-1092 | the enumerated playlist is sorted, a permutation of the directory's animation names, and each entry is typed GIF exactly when it ends in ".gif" |
| Playlist.SortKeepsNameProperty | main/animation_player.c:1088 | sorting keeps the length and keeps every entry an animation name |
| Playlist.CountAnimationFiles | main/animation_player.c:971-997 | the counting pass returns the number of animation files, which is positive exactly when the directory has one |
| Playlist.CollectAnimationFiles | main/animation_player.c:1035-1083 | the collecting pass returns the animation names in readdir order, each with the type of its own name |
| Playlist.RecomputeTypes | main/animation_player.c:1089-1092 | after sorting, every type is recomputed from the name now at its index, so a type is GIF exactly when its name ends in ".gif" |
| Playlist.NamesAppend | main/animation_player.c:971-997 | one more readdir entry adds its name to the collected names exactly when it is an animation file |
| AnimationDecoder.Init | main/webp_animation_decoder.c:34-135 | a missing handle pointer, missing data or an empty file is ESP_ERR_INVALID_ARG; a WebP or GIF file gets its adapter's result and any other type ESP_ERR_INVALID_ARG; a handle is returned exactly on success, freshly allocated and set up as its adapter's init leaves it |
| AnimationDecoder.GetInfo | main/webp_animation_decoder.c:137-160 | ESP_ERR_INVALID_ARG unless the handle is of a known type; otherwise the adapter's answer: ESP_ERR_INVALID_STATE before init, and on success the canvas size and frame count (WebP: transparency from the background colour's alpha byte; GIF: always transparent) |
| AnimationDecoder.DecodeNext | main/webp_animation_decoder.c:162-202 | ESP_ERR_INVALID_ARG and an untouched buffer for an unknown handle; WebP: INVALID_STATE at the end of the sequence and FAIL on a missing frame, leaving timing and buffer untouched, and on success the frame's canvas copied out, the delay from the timestamps and the new last timestamp; GIF: the canvases composed as the adapter does, INVALID_STATE on a negative library result with the buffer untouched, and otherwise the composed canvas copied out, the delay clamped to at least 1 ms and the frame counter advanced with wrap-around |
| AnimationDecoder.Reset | main/webp_animation_decoder.c:204-225 | ESP_ERR_INVALID_ARG for an unknown handle, and otherwise the adapter's reset |
| AnimationDecoder.GetFrameDelay | main/webp_animation_decoder.c:227-245 | ESP_ERR_INVALID_ARG for an unknown handle, INVALID_STATE before init, and on success the adapter's current frame delay, which is at least 1 ms |
| AnimationDecoder.Unload | main/webp_animation_decoder.c:247-272 | the caller's handle is cleared, including when it was already missing |
| WebpDecoder.InitError | main/webp_animation_decoder.c:58-118 | opening succeeds exactly when the options initialise, the file demuxes, carries the animation flag, the decoder is created and reports a non-empty canvas with frames; a still image is ESP_ERR_NOT_SUPPORTED and an empty canvas ESP_ERR_INVALID_SIZE |
| WebpDecoder.FrameDelay | main/webp_animation_decoder.c:185-191 | a frame's delay is the step between cumulative timestamps, clamped to at least 1 ms |
| WebpDecoder.DelaysTelescope | main/webp_animation_decoder.c:185-191 | for strictly increasing timestamps, the reported delays add up to the time from the start to the last timestamp |
| WebpDecoder.DelaysCoverSpan | main/webp_animation_decoder.c:185-191 | one delay per frame, each at least 1 ms, and together never less than the span of the timestamps |
| WebpDecoder.Webp.constructor | main/webp_animation_decoder.c:120-126 | an opened decoder starts with timestamp 0 and delay 1 ms |
| WebpDecoder.Webp.DecodeNext | main/webp_animation_decoder.c:168-196 | an uninitialised decoder or the end of the sequence is ESP_ERR_INVALID_STATE and a frame without pixels ESP_FAIL, changing nothing; a frame records its timestamp and delay and copies exactly one canvas into the buffer |
| WebpDecoder.Webp.Reset | main/webp_animation_decoder.c:210-219 | rewinds and restarts the timing from timestamp 0 with delay 1 ms; an uninitialised decoder is ESP_ERR_INVALID_STATE |
| WebpDecoder.Webp.GetFrameDelay | main/webp_animation_decoder.c:233-239 | the delay of the last decoded frame, never below 1 ms |
| WebpDecoder.Webp.GetInfo | main/webp_animation_decoder.c:143-154 | the canvas size and frame count, with transparency exactly when the background colour's alpha byte is zero |
| GifDecoder.LineInCanvas | components/animated_gif_decoder/gif_animation_decoder.c:45-55 | a line the library keeps inside the canvas lands wholly inside the RGBA buffer |
| GifDecoder.PixelValues | components/animated_gif_decoder/gif_animation_decoder.c:53-75 | the four bytes stored for pixel x are bytes 4x to 4x+3 of the line's segment: the previous frame's pixel for the transparent index, otherwise the palette colour with alpha 255 |
| GifDecoder.Drawn | components/animated_gif_decoder/gif_animation_decoder.c:31-76 | drawing a line keeps the canvas size |
| GifDecoder.Compose | components/animated_gif_decoder/gif_animation_decoder.c:237 | drawing a frame's lines in order keeps the canvas size |
| GifDecoder.ComposeKeepsUntouched | components/animated_gif_decoder/gif_animation_decoder.c:31-76 | a byte that no line of the frame covers keeps the value it had before the frame |
| GifDecoder.OpaquePixel | components/animated_gif_decoder/gif_animation_decoder.c:67-74 | an opaque pixel of a line becomes its palette entry's red, green and blue with alpha 255 |
| GifDecoder.TransparentPixel | components/animated_gif_decoder/gif_animation_decoder.c:57-60 | a transparent pixel of a line copies the previous frame's pixel at the same place |
| GifDecoder.CountFrames | components/animated_gif_decoder/gif_animation_decoder.c:149-154 | the counting loop returns the length of the leading run of playFrame results equal to 1 |
| GifDecoder.FramesPlayed | components/animated_gif_decoder/gif_animation_decoder.c:152-154 | the frame count is the leading run of results equal to 1, ended by the first other result |
| GifDecoder.InitError | components/animated_gif_decoder/gif_animation_decoder.c:79-193 | init succeeds exactly when the file opens, the canvas is non-empty and at least one frame plays; a file that does not open is ESP_FAIL and every other refusal ESP_ERR_INVALID_SIZE |
| GifDecoder.DecodeCanvases | components/animated_gif_decoder/gif_animation_decoder.c:225-237 | decoding makes the previous canvas the current one and keeps the canvas size |
| GifDecoder.ResetAsWritten | components/animated_gif_decoder/gif_animation_decoder.c:261-280 | reset as written leaves the current canvas alone and clears only the previous one |
| GifDecoder.ResetAsWrittenIsLost | components/animated_gif_decoder/gif_animation_decoder.c:225-229 | decode_next overwrites the previous canvas before any line reads it, so the clearing in reset changes nothing |
| GifDecoder.ResetAsWrittenCarriesOver | components/animated_gif_decoder/gif_animation_decoder.c:261-280 | after reset as written, a transparent pixel of the first frame still shows the frame before the reset |
| GifDecoder.ResetClearing | components/animated_gif_decoder/gif_animation_decoder.c:261-280 | the corrected reset clears both canvases |
| GifDecoder.ResetClearingBlanksCarryOver | components/animated_gif_decoder/gif_animation_decoder.c:261-280 | after the corrected reset, a transparent pixel of the first frame's last line is transparent black, whatever was shown before |
| GifDecoder.ComposeLast | components/animated_gif_decoder/gif_animation_decoder.c:237 | a frame is its last line drawn over the frame's earlier lines |
| GifDecoder.Gif.constructor | components/animated_gif_decoder/gif_animation_decoder.c:125-169 | an opened GIF holds the canvas as the counting pass left it, a cleared previous canvas, frame 0 and delay 1 ms |
| GifDecoder.Gif.DrawCallback | components/animated_gif_decoder/gif_animation_decoder.c:31-76 | drawing one line changes exactly that line's segment of the canvas, as the line drawing rule says |
| GifDecoder.Gif.WritePixel | components/animated_gif_decoder/gif_animation_decoder.c:53-75 | one iteration writes the four bytes of pixel x and nothing else |
| GifDecoder.Gif.StorePixel | components/animated_gif_decoder/gif_animation_decoder.c:62-73 | the four byte stores of one pixel |
| GifDecoder.Gif.DecodeNext | components/animated_gif_decoder/gif_animation_decoder.c:214-259 | an uninitialised decoder is ESP_ERR_INVALID_STATE and changes nothing; otherwise the previous canvas takes the current one and the frame is drawn onto a cleared canvas; a negative library result is then ESP_ERR_INVALID_STATE, and otherwise the delay is clamped to at least 1 ms, the canvas copied out and the frame counter advanced, wrapping at the frame count |
| GifDecoder.Gif.Reset | components/animated_gif_decoder/gif_animation_decoder.c:261-280 | the corrected reset: frame 0, delay 1 ms and both canvases cleared; an uninitialised decoder is ESP_ERR_INVALID_STATE |
| GifDecoder.Gif.GetFrameDelay | components/animated_gif_decoder/gif_animation_decoder.c:282-295 | the last frame's delay, never below 1 ms |
| GifDecoder.Gif.GetInfo | components/animated_gif_decoder/gif_animation_decoder.c:195-212 | the canvas size and counted frames, always with transparency |
| PngDecoder.ReadAt | main/png_animation_decoder.c:41-56 | a read succeeds exactly when it stays within the file, and then returns that many bytes and advances the offset by them |
| PngDecoder.ReadsCompose | main/png_animation_decoder.c:41-56 | two reads in a row take the same bytes as one read of both lengths, and fail exactly when it would |
| PngDecoder.Reader.constructor | main/png_animation_decoder.c:76-78 | the cursor starts at offset 0 of the file |
| PngDecoder.Reader.Read | main/png_animation_decoder.c:41-56 | copies the next bytes and advances the offset when the read fits the file; a read past the end changes nothing |
| PngDecoder.ChosenTransformsGiveRgba8 | main/png_animation_decoder.c:129-150 | for every colour type and bit depth the PNG format allows, the chosen transforms produce 8-bit RGB with an alpha channel, four bytes per pixel |
| PngDecoder.Strip16Needed | main/png_animation_decoder.c:130-132 | the strip_16 choice is what brings a 16-bit image to 8 bits: without it a 16-bit image of any colour type stays 16-bit |
| PngDecoder.FillerOnlyWithoutAlpha | main/png_animation_decoder.c:145-147 | the opaque filler is added exactly for the colour types without an alpha channel |
| PngDecoder.TransparencyByColourType | main/png_animation_decoder.c:127 | an image reports transparency exactly when its colour type has alpha or it carries a tRNS chunk |
| PngDecoder.InitError | main/png_animation_decoder.c:58-123 | init succeeds exactly when the signature matches, libpng reads the image and it is not empty; a bad signature is ESP_ERR_INVALID_ARG, a libpng error ESP_FAIL and an empty picture ESP_ERR_INVALID_SIZE |
| PngDecoder.RowOffsets | main/png_animation_decoder.c:172-175 | row y starts y * width * 4 bytes into the picture |
| PngDecoder.RowsTilePicture | main/png_animation_decoder.c:172-175 | each row starts where the previous one ends, and the last ends within the picture |
| PngDecoder.CopyRows | main/png_animation_decoder.c:177-178 | libpng filling every row at its pointer leaves the picture holding the decoded pixels in order |
| PngDecoder.Png.constructor | main/png_animation_decoder.c:125-127 | the opened picture keeps its size and transparency and starts with the 100 ms delay |
| PngDecoder.Png.Init | main/png_animation_decoder.c:58-207 | returns the init verdict, and on success a fresh decoder of the header's size whose picture is the decoded pixels |
| PngDecoder.Png.DecodeNext | main/png_animation_decoder.c:228-244 | every call copies the same picture out and restores the 100 ms delay |
| PngDecoder.Png.Reset | main/png_animation_decoder.c:246-261 | a still picture only restores its 100 ms delay |
| PngDecoder.Png.GetFrameDelay | main/png_animation_decoder.c:263-276 | returns the current delay |
| PngDecoder.Png.GetInfo | main/png_animation_decoder.c:209-226 | the size, one frame, and transparency as the header showed it |
| JpegDecoder.InitError | main/jpeg_animation_decoder.c:50-160 | init succeeds exactly when the SOI marker is present, every engine step succeeds and the picture is not empty; a missing marker is ESP_ERR_INVALID_ARG, an empty picture ESP_ERR_INVALID_SIZE, and a failing engine step passes on its own error |
| JpegDecoder.Expand565RoundTrip | main/jpeg_animation_decoder.c:164-183 | packing an expanded RGB565 pixel again gives the pixel back |
| JpegDecoder.Expand565Range | main/jpeg_animation_decoder.c:170-177 | a full field expands to 255 and an empty pixel to black, with the field kept in the top bits of each byte |
| JpegDecoder.ConvertPixel | main/jpeg_animation_decoder.c:168-193 | one iteration writes exactly the four bytes of pixel i: its colour and alpha 255 |
| JpegDecoder.ConvertToRgba | main/jpeg_animation_decoder.c:162-194 | every pixel of the picture becomes its colour from the engine output with alpha 255 |
| JpegDecoder.Jpeg.constructor | main/jpeg_animation_decoder.c:102-103 | the opened picture keeps its size and starts with the 100 ms delay |
| JpegDecoder.Jpeg.Init | main/jpeg_animation_decoder.c:50-219 | returns the init verdict, and on success a fresh decoder whose picture is the engine output converted to RGBA |
| JpegDecoder.Jpeg.DecodeNext | main/jpeg_animation_decoder.c:240-256 | every call copies the same picture out and restores the 100 ms delay |
| JpegDecoder.Jpeg.Reset | main/jpeg_animation_decoder.c:258-273 | a still picture only restores its 100 ms delay |
| JpegDecoder.Jpeg.GetFrameDelay | main/jpeg_animation_decoder.c:275-288 | returns the current delay |
| JpegDecoder.Jpeg.GetInfo | main/jpeg_animation_decoder.c:221-238 | the size, one frame, never transparent |
| JpegDecoder.Unload | main/jpeg_animation_decoder.c:290-320 | a JPEG handle is released and cleared, and any other handle is left alone |
| Touch.Actions | main/app_touch.c:33-58 | one action per poll of the controller |
| Touch.TouchTask | main/app_touch.c:24-62 | over a run of polls the task performs, in order, exactly the cycles the press edges request (backward left of the midpoint, forward otherwise), resets the auto-swap timer once per press, and leaves the player in the state those cycles produce |
| Touch.HoldFiresOnce | main/app_touch.c:38-54 | a touch held over any number of polls cycles exactly once |
| Touch.PressesSeparatedByRelease | main/app_touch.c:38-58 | between two cycling polls there is a poll without a touch: a held touch never fires twice |
| Touch.DirectionBySide | main/app_touch.c:43-52 | a press edge goes backward exactly when x is below half the panel width and forward exactly otherwise, and resets the auto-swap timer |
| Touch.ReleaseDoesNothing | main/app_touch.c:55-58 | a poll without a touch cycles nothing and leaves the player as it was |
| Lcd.LayoutInvariant | main/app_lcd_p4.c:68-80 | whichever branch is taken, the frame buffer is exactly vRes rows of the row stride, and a row holds at least one full line of pixels |
| Lcd.SpacingAdoptedIff | main/app_lcd_p4.c:71-80 | the driver's buffer spacing becomes the frame size when at least two non-NULL buffers are ascending and the spacing is a whole number of rows at least as wide as packed; otherwise, and always with one buffer, the packed layout stays |
| Lcd.StaticIsPacked | main/app_lcd_p4.c:31-32 | the statics' initial values are the packed layout for the configured colour depth |
| Lcd.Display.constructor | main/app_lcd_p4.c:29-33 | the statics start with the configured geometry, the packed layout and the configured buffer count |
| Lcd.Display.Init | main/app_lcd_p4.c:44-100 | a zero bytes-per-pixel configuration fails with ESP_ERR_INVALID_STATE and leaves the layout; otherwise the layout becomes the derived one and the result is the player's init error, else its start error, else ESP_OK |
| Lcd.SetAnimationPaused | main/app_lcd_p4.c:102-105 | forwards to the player's set-paused operation |
| Lcd.ToggleAnimationPause | main/app_lcd_p4.c:107-110 | forwards to the player's toggle |
| Lcd.IsAnimationPaused | main/app_lcd_p4.c:112-115 | reports the player's paused flag |
| Lcd.CycleAnimation | main/app_lcd_p4.c:117-120 | cycles the player one step forward |
| Lcd.CycleAnimationBackward | main/app_lcd_p4.c:122-125 | cycles the player one step backward |
| Lcd.CycleToRandom | main/app_lcd_p4.c:127-130 | asks the player for a random animation, with a pick the player allows |
| AppState.StateStr | components/app_state/app_state.c:33-40 | each state's code maps to its own name and back, and exactly the values outside the enum give "UNKNOWN" |
| AppState.NamesIdentifyStates | components/app_state/app_state.c:33-40 | two states with the same name are the same state |
| AppState.ErrorNotStickyAsWritten | components/app_state/app_state.c:16-24 | as written, set_state leaves ERROR when PROCESSING and PLAYING are then requested |
| AppState.SetState | components/app_state/app_state.h:54-60 | the documented transition: ERROR is kept, any other state takes the requested one |
| AppState.ErrorIsSticky | components/app_state/app_state.h:54-60 | under the documented rule, no sequence of requests leaves ERROR |
| AppState.RulesAgreeWithoutError | components/app_state/app_state.c:16-24 | without an error request the documented rule and the code agree and never reach ERROR |
| AppState.ErrorRequestEndsInError | components/app_state/app_state.h:54-60 | under the documented rule, any run that requests ERROR ends in ERROR |
| AppState.AppStateStore.constructor | components/app_state/app_state.c:9-14 | the state starts as PLAYING |
| AppState.AppStateStore.Get | components/app_state/app_state.c:26-31 | returns the current state |
| AppState.AppStateStore.Set | components/app_state/app_state.c:16-24 | set_state as written: the requested state replaces the current one unconditionally, ERROR included |
| AppState.AppStateStore.EnterPlaying | components/app_state/app_state.c:42-44 | the state becomes PLAYING, whatever it was before (ERROR included) |
| AppState.AppStateStore.EnterProcessing | components/app_state/app_state.c:46-48 | the state becomes PROCESSING, whatever it was before (ERROR included) |
| AppState.AppStateStore.EnterError | components/app_state/app_state.c:50-52 | the state becomes ERROR |
| ConfigStore.SerializedCases | components/config_store/config_store.c:26-79 | with no faults, a missing key reads as "{}", a stored text of at most 32 KiB reads back unchanged and a larger one is refused with ESP_ERR_NO_MEM; a successful read is never longer than 32 KiB |
| ConfigStore.LoadCases | components/config_store/config_store.c:81-109 | text that does not parse loads as an empty object, a parsed non-object is refused with ESP_ERR_INVALID_ARG, an object loads as itself, and only objects are ever returned |
| ConfigStore.RejectedBeforeAnyWrite | components/config_store/config_store.c:111-129 | a missing or non-object configuration gives ESP_ERR_INVALID_ARG; one that cannot be printed or prints longer than 32 KiB gives ESP_ERR_NO_MEM; in every such case no key changes |
| ConfigStore.TempFailureKeepsMain | components/config_store/config_store.c:131-164 | a failure opening the store, writing or committing the temporary key, or reading it back reports an error and leaves the main key as it was |
| ConfigStore.SuccessStoresText | components/config_store/config_store.c:166-188 | a save that reports success stored the printed text under the main key, erased the temporary key unless the erase failed, and touched no other key |
| ConfigStore.SaveThenReadRoundTrip | components/config_store/config_store.c:26-79 | after a successful save, a fault-free read returns exactly the text that was saved |
| ConfigStore.SaveThenLoadRoundTrip | components/config_store/config_store.c:81-109 | after a successful save, a fault-free load returns the saved object when its text parses back to it |
| ConfigStore.Store.constructor | components/config_store/config_store.c:11-14 | the namespace starts with the given blobs |
| ConfigStore.Store.GetSerialized | components/config_store/config_store.c:26-79 | returns the read's error and, on success, a fresh NUL-terminated buffer holding the stored text and its length |
| ConfigStore.Store.Load | components/config_store/config_store.c:81-109 | returns the load's error and object as the cases above state |
| ConfigStore.Store.Save | components/config_store/config_store.c:111-189 | returns the save's error and leaves the blobs as the sequence of store calls, up to the first failure, leaves them |
| HttpApi.HttpStatusStr | components/http_api/http_api.c:137-149 | every answer is a status line "ddd reason"; a known code's line starts with that code, and any other code is answered as 500 Internal Server Error |
| HttpApi.StatusLine | components/http_api/http_api.c:139-147 | a status line carries its three-digit code, then a space, then a non-empty reason |
| HttpApi.StatusLinesDistinct | components/http_api/http_api.c:137-149 | distinct known codes get distinct status lines, and every unknown code gets the same line as 500 |
| HttpApi.JsonContentAccepted | components/http_api/http_api.c:157-165 | a Content-Type of "application/json" in any letter case, followed by any parameters that keep it under 64 bytes, is accepted |
| HttpApi.JsonContentRefused | components/http_api/http_api.c:157-165 | a missing Content-Type, one shorter than "application/json", or one too long for the 64-byte buffer is refused |
| HttpApi.RecvBodyJson | components/http_api/http_api.c:167-201 | a declared length over 32 KiB gives 413 without reading; otherwise the loop asks for at most 4096 bytes per call, fails with 500 when a call returns nothing, and on success returns exactly the first content-length bytes the client sent, NUL-terminated |
| HttpApi.ReceiveCall | components/http_api/http_api.c:182-195 | one receive call asks for between 1 and 4096 bytes; a call returning nothing means the body cannot be completed, and otherwise the new bytes follow the received ones and the rest of the read is unaffected |
| HttpApi.CopyChunk | components/http_api/http_api.c:188 | the bytes of one receive land right after those already received and nothing past them changes |
| HttpApi.PromptClientFills | components/http_api/http_api.c:182-195 | a client that sends the whole body with a full chunk ready at every call is read completely |
| HttpApi.ShortStreamFails | components/http_api/http_api.c:182-195 | a client that sends fewer bytes than its Content-Length never completes the body, so the request gets 500 |
| HttpApi.EnqueueOutcome | components/http_api/http_api.c:99-113 | with a queue present, a command is queued exactly when the queue has room, at its end and with the next id modulo 2^32, and the id counter advances even when the send fails |
| HttpApi.MissingQueueConsumesNothing | components/http_api/http_api.c:99-103 | without a queue nothing is queued and no id is consumed |
| HttpApi.EnqueueKeepsCapacity | components/http_api/http_api.c:99-113 | the queue never holds more than 10 commands |
| HttpApi.IdsCountAttempts | components/http_api/http_api.c:105 | n enqueue attempts on an existing queue advance the 32-bit id counter by n modulo 2^32, whether or not they succeed |
| HttpApi.CommandQueue.constructor | components/http_api/http_api.c:41-44 | the queue starts empty with the id counter at 0, present or not |
| HttpApi.CommandQueue.Enqueue | components/http_api/http_api.c:99-113 | queues the command and advances the counter as the enqueue rule states |
| HttpApi.CommandQueue.Receive | components/http_api/http_api.c:56-58 | takes the oldest queued command, if any, and leaves the counter alone |
| HttpApi.SwapAcceptedIff | components/http_api/http_api.c:574-617 | a swap is answered 202 exactly when the device is not in ERROR, an empty or JSON body was sent and the queue took the command; in ERROR it gets 409; 415 and 503 come only after the earlier checks pass |
| HttpApi.RebootIgnoresState | components/http_api/http_api.c:553-567 | reboot is answered like a swap outside ERROR, and is accepted in ERROR too |
| HttpApi.HandleSwap | components/http_api/http_api.c:574-617 | the checks run in order and the queue is touched only when the state and content checks pass, with the answer the status rule gives |
| HttpApi.HandleReboot | components/http_api/http_api.c:553-567 | a non-JSON body gives 415 with the queue untouched; otherwise the reboot is enqueued and answered 202 or 503 |
| HttpApi.PutConfigOrder | components/http_api/http_api.c:510-547 | PUT /config answers 200 exactly when the content type is JSON, the body is read in full, it parses to an object and the save succeeds; a bad content type always gives 415; a 400 means the body was read; the only answers are 200, 400, 413, 415 and 500 |
| HttpApi.HandlePutConfig | components/http_api/http_api.c:510-547 | answers by the status rule and writes the store exactly when the body was read and parses to an object, as the save leaves it |
| HttpApi.WorkerOutcomes | components/http_api/http_api.c:54-97 | from any state: the worker ends in PLAYING exactly for a swap whose callback is registered, in PROCESSING exactly for a reboot (the restart follows), and in ERROR exactly for a swap without its callback or an unknown command |
| HttpApi.WorkerLeavesError | components/http_api/http_api.c:60-72 | as written, a reboot or a swap with its callback takes the device out of ERROR, contrary to the header's promise (third finding) |
| HttpApi.WorkerStep | components/http_api/http_api.c:54-97 | one command enters PROCESSING, then restarts for reboot, calls the registered swap callback, or does nothing, and leaves the state set_state as written gives |
| WifiStation.CStr | reference/05_wifistation/main/station_example_main.c:404 | the C string of a buffer is its longest NUL-free prefix, ended by the buffer's first NUL when there is one |
| WifiStation.StrLen | reference/05_wifistation/main/station_example_main.c:444 | strlen returns the index of the first NUL |
| WifiStation.CString | reference/05_wifistation/main/station_example_main.c:404 | reading a terminated buffer as a C string gives the text before its first NUL |
| WifiStation.HeadAt | reference/05_wifistation/main/station_example_main.c:361-379 | each step of url_decode consumes between one character and what is left |
| WifiStation.DecodeFromSuffix | reference/05_wifistation/main/station_example_main.c:354-382 | decoding from an index on is decoding the suffix that starts there |
| WifiStation.UrlDecode | reference/05_wifistation/main/station_example_main.c:354-382 | rewrites the C string in place to its decoded text, NUL-terminated, never longer than before, and touches nothing past the old terminator |
| WifiStation.DecodeStep | reference/05_wifistation/main/station_example_main.c:361-380 | one pass writes the next decoded character at dst, moves src past what it used and leaves the unread text intact |
| WifiStation.ReadStep | reference/05_wifistation/main/station_example_main.c:362-379 | the characters read at src decode to the character and step the decoding rule gives |
| WifiStation.DecodedNoLonger | reference/05_wifistation/main/station_example_main.c:354-382 | decoding never lengthens the text, so decoding in place is safe |
| WifiStation.PlainTextUnchanged | reference/05_wifistation/main/station_example_main.c:361-380 | text without '+' or '%' decodes to itself |
| WifiStation.PlusAndShortEscape | reference/05_wifistation/main/station_example_main.c:362-378 | every '+' becomes a space, and a '%' without two characters after it is copied |
| WifiStation.SpaceOrPlusEscapes | reference/05_wifistation/main/station_example_main.c:365-372 | strtoul accepts a leading space or '+' inside an escape, so "% 9" decodes to a tab and "%+A" to a newline |
| WifiStation.NegativeEscapes | reference/05_wifistation/main/station_example_main.c:365-376 | a negated digit wraps to a value over 255 and is copied as it is, except "%-0", which decodes to a NUL that ends the C string |
| WifiStation.HexPrefixNotEscape | reference/05_wifistation/main/station_example_main.c:365-376 | "%0x" is not an escape and is copied |
| WifiStation.EncodeChar | reference/05_wifistation/main/station_example_main.c:353-382 | the browser's form encoding of one byte takes one to three characters |
| WifiStation.FormEncoded | reference/05_wifistation/main/station_example_main.c:353-382 | the form encoding a browser applies to a field is at least as long as the text and at most three times as long |
| WifiStation.DecodeEncodeRoundTrip | reference/05_wifistation/main/station_example_main.c:353-382 | url_decode inverts the browser's form encoding: decoding the encoded text of any byte string gives the string back |
| WifiStation.EncodedAlphabet | reference/05_wifistation/main/station_example_main.c:353-382 | form-encoded text holds only unreserved characters, '+' and '%', so it has no '&', '=' or NUL |
| WifiStation.FindFrom | reference/05_wifistation/main/station_example_main.c:411-412 | strstr returns the first occurrence of the key, and none exactly when the key does not occur |
| WifiStation.AmpIndex | reference/05_wifistation/main/station_example_main.c:416 | strchr for '&' returns the first '&', or the end when there is none |
| WifiStation.FieldText | reference/05_wifistation/main/station_example_main.c:414-442 | a field's raw text never exceeds the buffer's capacity |
| WifiStation.SavedCredentialsFit | reference/05_wifistation/main/station_example_main.c:407-452 | credentials are saved only with a non-empty SSID, and the SSID and password fit their 32- and 64-byte buffers with the NUL |
| WifiStation.NoPasswordKeyBefore | reference/05_wifistation/main/station_example_main.c:412 | "password=" cannot start at a position whose ninth character is not '=', so no earlier occurrence exists when none of those characters is '=' |
| WifiStation.FormIsCString | reference/05_wifistation/main/station_example_main.c:397-404 | a browser-encoded form holds no NUL, so it is received whole as a C string |
| WifiStation.FieldAfterKey | reference/05_wifistation/main/station_example_main.c:414-442 | a value that follows the first occurrence of its key and ends at '&' or the end of the text, within capacity, is the field's raw text |
| WifiStation.FieldsOfForm | reference/05_wifistation/main/station_example_main.c:411-442 | in "ssid=<s>&password=<p>" the SSID field is s and the password field is p, when neither value holds '&' and s holds no '=' |
| WifiStation.SsidFieldOfForm | reference/05_wifistation/main/station_example_main.c:414-427 | in such a form, the SSID field is the text between "ssid=" and '&' |
| WifiStation.PasswordFieldOfForm | reference/05_wifistation/main/station_example_main.c:429-442 | in such a form, the password field is the text after "password=" |
| WifiStation.WellFormedFormSaves | reference/05_wifistation/main/station_example_main.c:392-455 | the form a browser posts (letters, digits and "*-._" kept, space as '+', other bytes as %XX) for a non-empty SSID and a password without NUL, whose encodings fit 31 and 63 characters, fits the 200-byte buffer, and the handler saves exactly that SSID and password |
| WifiStation.FieldTextWithoutNul | reference/05_wifistation/main/station_example_main.c:414-442 | a field taken from NUL-free text holds no NUL |
| WifiStation.CStrTerminated | reference/05_wifistation/main/station_example_main.c:404 | appending a NUL does not change a buffer's C string |
| WifiStation.ReadField | reference/05_wifistation/main/station_example_main.c:414-442 | copying a field into its buffer and decoding it in place gives the field's value: the decoded raw text, or empty when the key is absent |
| WifiStation.SavePostHandler | reference/05_wifistation/main/station_example_main.c:392-455 | a timeout answers 408, any other failed receive fails, and otherwise the credentials are saved exactly when the decoded SSID is non-empty |
| WifiStation.Disconnects | reference/05_wifistation/main/station_example_main.c:219-227 | a run of n events that are all disconnects |
| WifiStation.DisconnectsExhaustRetries | reference/05_wifistation/main/station_example_main.c:219-227 | from used retries, n disconnects reconnect min(n, 3 - used) times, the retry count reaches min(used + n, 3), and the failure bit is raised exactly when n exceeds the retries left |
| WifiStation.GotIpRestoresRetries | reference/05_wifistation/main/station_example_main.c:228-232 | getting an address resets the retries and sets the connected bit, so the next disconnect reconnects |
| WifiStation.StationEvents.constructor | reference/05_wifistation/main/station_example_main.c:86 | the retry count starts at 0 with neither bit set |
| WifiStation.StationEvents.OnDisconnected | reference/05_wifistation/main/station_example_main.c:219-227 | reconnects and counts a retry while retries remain, and raises the failure bit once they are used up |
| WifiStation.StationEvents.OnGotIp | reference/05_wifistation/main/station_example_main.c:228-232 | resets the retry count and sets the connected bit |

## Left out

- Concurrency: the FreeRTOS tasks, semaphores, task notifications, memory barriers, the VSYNC interrupt callback and the yield loops are left out. Each critical section is one atomic step of `AnimationPlayer`, and the two upscale workers become two sequential blit calls on disjoint row ranges. Interleavings inside a critical section are not modelled.
- Mutexes around `g_state`, the command queue and the configuration store are left out; each call is atomic in the model.
- Storage I/O (SD mount, `fopen`/`fread`, `opendir`/`readdir`/`stat`) is left out. The directory tree and each file's bytes or load outcome are inputs, and a failed `stat` is an `Other` entry.
- Memory allocation: in the player's load, the allocation failures (lookup tables, prefetch frame) are load stages given as inputs. Elsewhere allocation always succeeds, and the ESP_ERR_NO_MEM paths of a failed `malloc` are not modelled.
- The foreign decoders (libwebp, AnimatedGIF, libpng, the hardware JPEG engine) are oracles whose answers are parameters. Any libpng error, in the header or the pixel data, is modelled as a header that did not parse.
- GifDecoder.Gif.constructor: the canvas after the frame-counting pass is an input (`Opening.counted`). The source draws that pass onto uninitialised memory from `malloc`, so its bytes are not determined by the code.
- GifDecoder.Gif.Reset: models the corrected reset, which clears both canvases. The reset as written is `ResetAsWritten`, and the second finding relates the two.
- AnimationPlayer.Load: models the corrected load, whose caller frees only what the buffer still holds, so a failed lookup-table allocation releases the file once. The source as written is `LoadAsWritten`, and the fourth finding relates the two.
- AnimationPlayer.Player.LoaderComplete: models the loader as written; the retrying loader of the first finding is the separate `LoaderCompleteRetrying`.
- The LCD panel driver, cache synchronisation, `esp_lcd_panel_draw_bitmap`, `esp_timer` and `vTaskDelay` are left out. Timestamps are inputs, and the pacing step returns the sleep it would take.
- `esp_random` is left out; the random pick of `cycle_to_random` is an input index, constrained as the draw loop constrains it.
- Player start-up: `animation_player_init` is modelled only as its start-index choice (`ChooseStartIndex`), with each entry's load outcome as input. The SD mount, the directory search errors and the task creation are left out.
- Glyph bitmaps and `draw_char`'s pixel rendering are left out; only the width and placement arithmetic is modelled. The update of the overlay's duration text is also left out.
- Lcd: app_lcd_init requires a non-zero vertical resolution, which the panel configuration always supplies; the layout functions state it as a precondition.
- The NVS flash stack is an abstract key/value map with per-operation fault codes. Commit durability and wear levelling are left out.
- cJSON parse and print are oracles: a configuration is given with its printed text (or none when printing fails), and a parse result is an input.
- HttpApi: httpd's own header truncation is left out. A header is given as the text the lookup returns, or as missing or too long.
- WifiStation: `strtoul` is modelled only on the two-character strings `url_decode` hands it, with a 32-bit `unsigned long` for the negated result of a leading '-'; locale-dependent white space is not modelled.
- HttpApi.WorkerStep: the worker's `default` branch for unknown command codes is modelled as one `Other` command kind rather than per code.
- The touch samples and the station events are finite sequences, so the polling loop and the event loop are modelled over a finite run.
- The HTTP server setup, `h_get_root`/`h_get_config` page and text assembly, mDNS, Wi-Fi and netif bring-up and the captive-portal DNS task are pure output or I/O, and are left out.
- The earlier copy of the HTTP API under reference/05_wifistation/components/http_api/http_api.c is not part of this model; its helpers are the same as those modelled.
- main/p3a_main.c (start-up wiring), the Arduino compatibility shims and the TouchDesigner upload script are not part of this model.

## Findings

| source | as written | input that shows it | evidently intended | confidence | as-written member | corrected member |
|---|---|---|---|---|---|---|
| main/animation_player.c:604-613 | a failed load records the next index and clears the busy flag, but neither wakes the loader again nor clears the swap request; every later cycle request is dropped because a swap is still requested | a non-empty playlist, one cycle request, and a load of the target file that fails (for example an unreadable or undecodable file) | after a failure the loader moves to the next entry and retries, as its own comment says, so the request eventually swaps in a loadable file | not executed | AnimationPlayer.BlockedForever | AnimationPlayer.RetryEventuallySwaps |
| components/animated_gif_decoder/gif_animation_decoder.c:261-280 | reset zeroes the previous canvas but not the current one; decode_next copies the current canvas into the previous one before drawing, so the clearing is lost | a 1x1 GIF showing pixel (9,9,9,9), reset, then a frame whose only pixel is the transparent index: the output pixel is (9,9,9,9), not transparent black | after a reset the first frame composites over a blank canvas, so nothing from before the reset shows through | not executed | GifDecoder.ResetAsWrittenCarriesOver | GifDecoder.ResetClearingBlanksCarryOver |
| components/app_state/app_state.c:16-20 | set_state overwrites the state unconditionally, although app_state.h documents ERROR as kept until reboot | from ERROR, the worker's enter_processing and enter_playing end in PLAYING; a reboot queued in ERROR (accepted in any state) leaves the state PROCESSING | once ERROR is entered, no later transition leaves it | not executed | AppState.ErrorNotStickyAsWritten | AppState.ErrorIsSticky |
| main/animation_player.c:1280-1292 | when a lookup-table allocation fails, unload_animation_buffer frees the file buffer, and the caller at line 1370 frees its own copy of the same pointer again | a file that opens and decodes, followed by a failed lookup-table allocation | every failed load releases the file buffer exactly once | not executed | AnimationPlayer.LookupFailureDoubleRelease | AnimationPlayer.LoadReleasesFileOnce |
