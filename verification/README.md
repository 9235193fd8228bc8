# Verified model of the photo frame

A photo frame built on an ESP32 (Rust, under `packages/`) shows photos that a
Home Assistant integration (Python, under `custom_components/`) selects,
prepares and sends to it. This project models the logic of both in Dafny and
proves properties of it. `dafny verify dfyconfig.toml` checks everything.

What is modelled, from the card up to the controller:

- **CardNames, CardCache, PhotoQueue**: the SD card cache. File names and their
  order; storing as separate steps that removals and power cuts may interrupt;
  the directory read as a first-in-first-out queue.
- **RenderedImages, ImageBuffer, PanelRotation, PhotoFit**: pixels. Two RGB565
  conversions, the in-memory buffer with its generation number, the quarter turn
  and the fitting of photos, for any panel size and under any rounding as accurate
  as single precision.
- **PanelSync, Playlist, OfflineFrame, PowerCuts, TopUpRaces**: the frame as a
  whole. The panel is redrawn only when a number changes, photos move from card to
  memory when needed, several threads do it, and the power may go; together they are
  meant to be one playlist shown in order. `OfflineFrame.PanelShowsThePlaylist` is
  that claim.
- **MediaWalk, FolderPruning, FolderListing**: choosing. The walk of a possibly
  cyclic media source, pruning nested choices, the capped folder listing.
- **PlayOrder, Coordinator, FrameSessions, Delivery, Consumers, Silence, GoingBack**:
  sending. The shuffled pool, its refreshing with fallback and backoff, the
  per-connection history, the consumers that share the pool, how long they can send
  nothing new, and what stepping back finds.
- **PreparedPhotos**: the store of prepared photos on the controller's disk.
- **ControlPlane**: the frame's connection and render threads.
- **CaptiveDns**: the setup portal's name server, with a reader for RFC 1035.

`Wrappers`, `FrameCore`, `Arithmetic`, `FiniteSets` and `SortedSets` hold shared
types and helpers.

Objects whose methods update fields are classes here too, and each method is
proved against a function of the old state; the theorems are then about those
functions and about runs of them. Endless loops are modelled as runs over a
script of the world's answers. What the world decides (a write failing, a
transfer failing, the order a shuffle deals, a listing, a clock reading) is a
parameter, so that the theorems hold for every choice.

## Where the code and what it says of itself part

The model follows the code. In each case a theorem says exactly when the
expected behaviour holds.

- The card's names sort by arrival only below order number 10^12
  (`CardNames.NameOrderExact`).
- A spare whose store fails, whether unsuitable, not written or not renamed, goes
  to memory, ahead of everything on the card (`Playlist.FallbackJumpsTheQueue`).
- `show_rendered_image` promises to keep spares; with three photos held the last
  one goes (`Playlist.ShowKeepsSparesBelowCapacity`). When the buffer is full
  `push_rendered_image` drops the newest spare, though a comment says the oldest.
- Topping up is check, take, push without a lock around the three, and showing a
  photo at once or falling back to memory looks at nothing. With `n` threads topping
  up and `k` photos put in that way, photos are safe exactly if memory has room for
  the `k` and `n + k <= 2` (or nobody tops up). The firmware has four threads that top
  up: the main loop, the render thread, the touch thread and the health thread
  (`TopUpRaces.KeepsEveryPhotoExactly`). Two can already swap photos.
- A connection thread that ends while connected leaves the frame waiting: it never
  rotates by itself again (`OfflineFrame.EndedWhileConnectedNeverRotates`).
- The first reconciliation that fails ends the main loop for good: nothing is drawn
  or rotated after it. A photo sent as an encoded image is used at its own size, so
  one smaller than the panel does this (`PanelSync.LoopSurvivesExactly`,
  `OfflineFrame.NothingHappensAfterAFailure`).
- A comment on pruning says that a nested choice would put photos in the pool
  twice; the walk's record of visited folders already prevents that. Pruning by
  prefix can lose a sibling (`FolderPruning.SiblingIsLost`).
- The coordinator promises the bundled photos when its source has nothing. The
  sources that ship keep that promise, because they report an unreadable folder as
  an empty one (`Coordinator.MediaSourceFallsBackExactly`). A source behind the same
  interface that reports an error on the very first refresh leaves the pool empty
  for an hour (`Coordinator.FirstErrorMeansAnHourBlank`).
- On one connection a pool of 64 photos or fewer falls silent. A larger one can
  leave rotations without a photo for a while even if every photo can be sent: up
  to six in a row from 128 photos on, up to twelve with 65, never more
  (`Silence.RotationsShowExactly`).
- "Previous" straight after a rotation finds a spare, because sending the spares
  moved the same cursor, and the connection refuses it as already sent, with
  exceptions that are stated exactly (`GoingBack.GoingBackAfterARotation`).
- A late close of an old socket removes the frame's newer session
  (`FrameSessions.LateCloseCutsOffTheNewConnection`).
- Rewriting a temporary file that a crash left behind keeps its old access time,
  so a put can evict the photo it has just written
  (`PreparedPhotos.PutKeepsItsPhotoExactly`, `PreparedPhotos.LeftoverLosesThePhoto`).
- The name server copies the question count but only one question, so its reply
  is malformed unless the count is one (`CaptiveDns.ReadableExactlyForOneQuestion`).

## Model

| member | source | states |
|---|---|---|
| CardNames.NameRoundTrip | packages/frame-firmware/src/photo_cache.rs:56-66 | A final name carries the photo extension and gives back exactly the id and the order number it was made from |
| CardNames.OrderTextParsesBack | packages/frame-firmware/src/photo_cache.rs:80-91 | The zero-padded order text parses back to its number for every u64 |
| CardNames.NamesAreDistinct | packages/frame-firmware/src/photo_cache.rs:56-66 | Two names are equal if and only if order and id are; a temporary name is never a photo's name |
| CardNames.NameOrderExact | packages/frame-firmware/src/photo_cache.rs:109-120 | Two cached photos sort in arrival order if and only if the earlier number is at most the leading digits of the later one |
| CardNames.PaddedOrderIsArrivalOrder | packages/frame-firmware/src/photo_cache.rs:109-120 | Below 10^12, sorting file names is sorting arrivals, in both directions |
| CardNames.ThirteenthDigitBreaksOrder | packages/frame-firmware/src/photo_cache.rs:56-58 | Number 10^12 sorts before its predecessor, so the padding promise stops there |
| CardCache.NextSequenceIsAboveAll | packages/frame-firmware/src/photo_cache.rs:80-91 | The order number chosen is above every number on the card, and no higher than the number of photos ever landed |
| CardCache.StepKeepsInv | packages/frame-firmware/src/photo_cache.rs:126-157 | Each single step of storing, each removal by a reader and each power cut keeps the card sound, with the writer's earlier checks still true |
| CardCache.CardStaysSound | packages/frame-firmware/src/photo_cache.rs:122-157 | From an empty card, any interleaving of one writer's steps with removals and power cuts leaves at most 48 visible photos, whole, with distinct ids and distinct order numbers |
| CardCache.NewestSortsLast | packages/frame-firmware/src/photo_cache.rs:126-157 | At the moment a photo is renamed into place its name sorts after every other on the card |
| PhotoQueue.StoredIs | packages/frame-firmware/src/photo_cache.rs:126-157 | What an uninterrupted store leaves in the directory, case by case: refused, failed while writing, failed while renaming, landed |
| PhotoQueue.TakenIsDequeue | packages/frame-firmware/src/photo_cache.rs:164-186 | Taking returns the first whole photo in name order and removes it; nothing is returned if and only if there is none, and then the card is empty |
| PhotoQueue.TakeIsRemovals | packages/frame-firmware/src/photo_cache.rs:164-186 | A take is a series of removals, so what holds of removals between any two steps of a store holds of takes |
| PhotoQueue.StoreIsEnqueue | packages/frame-firmware/src/photo_cache.rs:126-157 | An accepted photo joins the end of the queue that the directory stands for |
| PhotoQueue.AcceptsMeansWanted | packages/frame-firmware/src/photo_cache.rs:126-145 | A photo is accepted if and only if it has the panel's size and a non-empty alphanumeric id that no photo on the card has, the card holds fewer than 48 and does not refuse |
| PhotoQueue.StoredIsKept | packages/frame-firmware/src/photo_cache.rs:126-157 | A wanted photo that lands joins the end of the queue; an unwanted one changes nothing and is no error; an unsuitable one changes nothing and is one |
| PhotoQueue.PhotoCache.Store | packages/frame-firmware/src/photo_cache.rs:126-157 | The imperative store: exact new directory, exactly when each of the four errors is returned, and which photos join the queue, are quietly left alone, or are errors that leave no trace |
| PhotoQueue.PhotoCache.TakeOldest | packages/frame-firmware/src/photo_cache.rs:164-186 | The discard loop returns the head of the queue and leaves the rest of the queue |
| PhotoQueue.PhotoCache.Clear | packages/frame-firmware/src/photo_cache.rs:188-193 | Removes every cached photo and nothing else |
| RenderedImages.PackingsAgree | custom_components/photoframe_bridge/renderer.py:203-219 | The controller's mask-and-shift packing and the frame's shift packing give the same pixel for every triplet |
| RenderedImages.PixelKeepsTopBits | packages/frame-ui/src/rendered_image.rs:42-66 | Two triplets give the same pixel if and only if their top five, six and five bits agree |
| RenderedImages.Rgb8BytesAreAnImage | packages/frame-ui/src/rendered_image.rs:42-66 | Triplets make an image of any size if and only if there are exactly as many as it has pixels; then each pixel is its triplet's top bits, and otherwise the refusal says what was given and what was wanted |
| RenderedImages.WrittenPixelsReadBack | packages/frame-ui/src/rendered_image.rs:67-83 | Reading little-endian bytes undoes writing them |
| RenderedImages.ReadPixelsWriteBack | packages/frame-ui/src/rendered_image.rs:67-83 | Writing pixels undoes reading them, for every even-length buffer |
| RenderedImages.ToRgb565 | custom_components/photoframe_bridge/renderer.py:210-219 | The byte loop writes exactly the little-endian spelling of the pixels the frame itself would have packed |
| RenderedImages.PixelPathsAgree | packages/frame-ui/src/rendered_image.rs:42-83 | Converted by the controller and read by the frame, or converted by the frame: the same image, and the same refusals |
| RenderedImages.PhotoBytesAreAPhoto | packages/frame-ui/src/rendered_image.rs:67-83 | A download becomes a photo if and only if it has exactly the panel's byte count, and then spells the same bytes |
| ImageBuffer.ChangesAreCounted | packages/frame-ui/src/rendered_image.rs:115-233 | No change outgrows three photos, alters the visible photo without a new generation, or blanks the screen except by clearing |
| ImageBuffer.RenderedImageState.ShowRenderedImage | packages/frame-ui/src/rendered_image.rs:153-176 | A photo without an id, or with another id than the front one, goes in front of the others, of which the last goes at capacity; otherwise nothing changes |
| ImageBuffer.RenderedImageState.PushRenderedImage | packages/frame-ui/src/rendered_image.rs:179-197 | Queues behind; at capacity the most recently queued photo goes; a new generation only for the first photo |
| ImageBuffer.RenderedImageState.SetRenderedImage | packages/frame-ui/src/rendered_image.rs:200-208 | Replaces everything by one photo |
| ImageBuffer.RenderedImageState.AdvanceRenderedImage | packages/frame-ui/src/rendered_image.rs:214-225 | Drops the front if and only if a spare is there, and says so |
| ImageBuffer.RenderedImageState.ClearRenderedImage | packages/frame-ui/src/rendered_image.rs:227-234 | Empties the buffer as a new generation |
| PanelRotation.Rotate90 | packages/frame-ui/src/panel.rs:223-232 | The nested loop fills the whole destination with the quarter turn, for every width and height |
| PanelRotation.PixelLandsAt | packages/frame-ui/src/panel.rs:223-232 | Canvas pixel (x, y) lands at panel column h-1-y of row x |
| PanelRotation.WrittenExactlyOnce | packages/frame-ui/src/panel.rs:223-232 | Every panel index is written by exactly one canvas pixel |
| PanelRotation.TwoTurnsReverse | packages/frame-ui/src/panel.rs:223-232 | Two quarter turns reverse the pixels |
| PanelRotation.FourTurnsRestore | packages/frame-ui/src/panel.rs:223-232 | Four quarter turns give the canvas back |
| PanelRotation.RotationIsInjective | packages/frame-ui/src/panel.rs:223-232 | Two canvases look the same on the panel if and only if they are the same |
| PanelRotation.Panel.Flush | packages/frame-ui/src/panel.rs:134-137 | The panel receives the turned canvas, or an error and whatever the failed transfer left |
| PanelRotation.Panel.Present | packages/frame-ui/src/panel.rs:174-184 | A photo of at least the panel's size appears turned; a shorter one is refused and the screen untouched |
| PanelSync.RunKeepsInv | packages/frame-ui/src/ui.rs:46-90 | After any run of photo changes and reconciliations, up to the first that fails, the recorded screen, the generation and the panel's contents agree |
| PanelSync.SyncRefinesRedraw | packages/frame-ui/src/ui.rs:46-90 | After any run, a successful reconciliation leaves the panel exactly as redrawing unconditionally would, for photos and setup screens alike |
| PanelSync.SettledPanelIsLeftAlone | packages/frame-ui/src/rendered_image.rs:190-195 | Queueing a spare or showing the photo already up never makes the panel redraw |
| PanelSync.ScreenFollowsThePhase | packages/frame-ui/src/ui.rs:58-89 | Without a photo, a successful reconciliation leaves the panel with the one screen that belongs to the phase, after any run |
| PanelSync.WrapHidesTheChange | packages/frame-ui/src/rendered_image.rs:174-175 | Replacing the photo n times between reconciliations leaves the old one up if and only if n is a multiple of 2^64 |
| PanelSync.LoopSurvivesExactly | packages/frame-ui/src/ui.rs:46-57 | Given a new photo, the main loop goes on if and only if the photo fills the panel and the transfer succeeds |
| PanelSync.NothingIsDrawnAfterAFailure | packages/frame-firmware/src/main.rs:576-576 | After the first failed reconciliation nothing is drawn again, whatever happens: the error ends the loop |
| PanelSync.FrameUi.Sync | packages/frame-ui/src/ui.rs:46-90 | The imperative reconciliation refines the step function on every outcome of the transfer |
| Playlist.Frame.TopUpFromCache | packages/frame-firmware/src/runtime.rs:313-332 | The top-up loop terminates and computes the specified move from card to memory |
| Playlist.Frame.Pass | packages/frame-firmware/src/main.rs:574-604 | A pass is an offline rotation if and only if the controller is away and 300 seconds have gone by since the last one; otherwise it changes nothing |
| Playlist.Frame.Tap | packages/frame-firmware/src/main.rs:544-560 | A tap advances, or with nothing ready tops up from the card |
| Playlist.Frame.Render | packages/frame-firmware/src/runtime.rs:379-455 | A photo to be shown is in front afterwards, unless its id was up already, and the card is untouched; a spare leaves the screen alone and joins the end of the playlist, or changes nothing if the card has no use for it, or goes behind memory if its store fails; with local photos active or nothing fetched nothing changes |
| Playlist.SpareIsKept | packages/frame-firmware/src/runtime.rs:425-442 | What becomes of a spare in every case, told from the names on the card |
| Playlist.TopUpKeepsPlaylist | packages/frame-firmware/src/runtime.rs:313-332 | Topping up leaves memory-then-card unchanged as one list, keeps what is in memory in front, and ends with two in memory or an empty card |
| Playlist.RotationIsNext | packages/frame-firmware/src/main.rs:582-600 | An offline rotation drops exactly the head of the playlist, or leaves a playlist of one alone; the screen is never blank |
| Playlist.TapIsNextOrFetch | packages/frame-firmware/src/main.rs:544-560 | A tap drops the head if a spare was in memory, and otherwise fetches one if the card has any |
| Playlist.SpareJoinsTheEnd | packages/frame-firmware/src/runtime.rs:420-443 | A spare the card accepts joins the end of the playlist; one it declines changes nothing |
| Playlist.OnePlaylist | packages/frame-firmware/src/runtime.rs:313-332 | Over any run of rotations, taps, refills and stored spares: pictures gone, then pictures left, is the start followed by what was added |
| Playlist.ScreenShowsTheNextTurn | packages/frame-firmware/src/main.rs:574-604 | So after any such run the screen shows exactly the picture whose turn it is |
| Playlist.RotationsWalkThePlaylist | packages/frame-firmware/src/main.rs:582-600 | Left alone, the frame shows its playlist once each in order and then holds the last picture |
| Playlist.FallbackJumpsTheQueue | packages/frame-firmware/src/runtime.rs:431-441 | A spare whose store fails, at whatever point, enters the playlist between memory and card; it is last if and only if memory had room and nothing different was waiting on the card |
| Playlist.ShowKeepsSparesBelowCapacity | packages/frame-ui/src/rendered_image.rs:164-176 | Showing a photo at once keeps every other photo if and only if memory was not full |
| TopUpRaces.StepAccounts | packages/frame-ui/src/rendered_image.rs:153-233 | Whatever a thread does, all photos there were and all that arrive are there afterwards, wherever they are, except the one pushed out of a full memory |
| TopUpRaces.RunAccounts | packages/frame-firmware/src/runtime.rs:313-332 | So over any interleaving of any number of threads, counted with multiplicity |
| TopUpRaces.LosingRun | packages/frame-firmware/src/runtime.rs:313-332 | Without room, every state at rest whose card holds more photos than there are threads has a run that loses a photo; it puts photos only between calls |
| TopUpRaces.KeepsEveryPhotoExactly | packages/frame-firmware/src/runtime.rs:313-332 | With m photos in memory at rest, n threads that may top up and up to k photos shown at once or fallen back to memory: every interleaving keeps every photo if and only if m + k <= 3 and (n = 0 or n + k <= 2) |
| TopUpRaces.RacesInNumbers | packages/frame-firmware/src/runtime.rs:313-332 | Two threads are safe with no such photo and not with one; one thread is safe with one and not with two; four threads lose a photo by themselves |
| TopUpRaces.TwoThreadsCanSwap | packages/frame-firmware/src/runtime.rs:313-332 | Even two threads can exchange the order of the photos they carry |
| TopUpRaces.CheckIsTheGuard | packages/frame-firmware/src/runtime.rs:314-318 | A thread's check passes if and only if the top-up loop's guard does |
| TopUpRaces.TakeIsTaken | packages/frame-firmware/src/photo_cache.rs:164-186 | A thread's take is the card's own take |
| TopUpRaces.PushIsPush | packages/frame-ui/src/rendered_image.rs:179-197 | A thread's push is the buffer's own push, full or not |
| TopUpRaces.AdvanceIsAdvance | packages/frame-ui/src/rendered_image.rs:214-225 | An advance is the buffer's own advance |
| TopUpRaces.ClearIsClear | packages/frame-firmware/src/runtime.rs:457-459 | A clearing is the buffer's own |
| TopUpRaces.ShowIsShow | packages/frame-firmware/src/runtime.rs:443-445 | A show is the buffer's own show of a photo that is not up already |
| TopUpRaces.FallbackIsPush | packages/frame-firmware/src/runtime.rs:431-439 | A fallback is the buffer's push, without the loop's check |
| TopUpRaces.StoreIsStored | packages/frame-firmware/src/photo_cache.rs:126-157 | A store is the card's own, of a photo that the card takes |
| PowerCuts.CutIsAnOutcome | packages/frame-firmware/src/photo_cache.rs:122-157 | Wherever the power goes during a store, the card is left as one of the outcomes of an uninterrupted store leaves it |
| PowerCuts.CutEndsTheStore | packages/frame-firmware/src/photo_cache.rs:122-157 | After the cut nothing more of that store happens |
| PowerCuts.CutKeepsTheQueue | packages/frame-firmware/src/photo_cache.rs:122-157 | The queue is then what it was, with the new photo at its end if and only if it had been renamed |
| PowerCuts.RestartIsInStep | packages/frame-firmware/src/runtime.rs:313-332 | After a restart the playlist is what the card holds, and topping up puts it in step again |
| PowerCuts.PowerCutLosesOnlyMemory | packages/frame-firmware/src/runtime.rs:313-332 | After any run of rotations, taps, refills and spares, a power cut in the middle of storing another loses the at most three pictures in memory and nothing else, and the order stays |
| PowerCuts.CutWhileTaking | packages/frame-firmware/src/photo_cache.rs:164-186 | A cut between taking a photo from the card and queueing it loses that one and the at most one in memory |
| TopUpRaces.LoneThreadTopsUp | packages/frame-firmware/src/runtime.rs:313-332 | A thread that nobody interrupts does with these steps exactly what topping up does |
| OfflineFrame.EventIsChanges | packages/frame-firmware/src/main.rs:574-604 | Every offline event is a given series of changes to the photos in memory, as the reconciler sees them |
| OfflineFrame.EventBumpsOnce | packages/frame-ui/src/rendered_image.rs:179-225 | An event changes the generation number at most once, however many photos it moves |
| OfflineFrame.RunKeepsTune | packages/frame-firmware/src/main.rs:574-604 | Over any run of reconciliations and rotations with other threads' events between them, the photos the reconciler sees are the playlist's, its record is true, no picture is lost, repeated or reordered, and each turn puts the panel at most one photo further behind |
| OfflineFrame.RunIsThePlaylistsRun | packages/frame-firmware/src/main.rs:574-604 | The photos go through exactly what the other threads do and the rotations the loop records, in that order, and the connection thread through exactly its own turns |
| OfflineFrame.PanelShowsThePlaylist | packages/frame-firmware/src/main.rs:574-604 | End to end: from any state with a photo up, over any run of passes with taps, refills, stored spares and the connection's ups and downs in between, a reconciliation that succeeds leaves on the panel, turned, the picture whose turn it is |
| OfflineFrame.NothingHappensAfterAFailure | packages/frame-firmware/src/main.rs:574-604 | After a failed reconciliation nothing is rotated and the panel never changes, though other threads still move photos |
| OfflineFrame.RotationsAreApart | packages/frame-firmware/src/main.rs:582-583 | Offline rotations are at least 300 seconds apart |
| OfflineFrame.AwayMeansRotating | packages/frame-firmware/src/main.rs:577-604 | While the connection thread dials or pauses, the loop rotates if and only if 300 seconds have gone by, and moves exactly one picture on |
| OfflineFrame.EndedWhileConnectedNeverRotates | packages/frame-firmware/src/main.rs:577-582 | If the connection thread ends while connected, the frame never rotates by itself again, over every run |
| OfflineFrame.MainPass | packages/frame-firmware/src/main.rs:574-604 | One pass: reconcile, and only if that succeeded and a rotation is due, rotate |
| PhotoFit.SizesFollowTreatment | packages/frame-ui/src/fit.rs:66-76 | A crop is at least the panel both ways, a letterboxed photo at most, and either equals it one way, for every source size and whatever single-precision rounding does |
| PhotoFit.PhotoIsCentred | packages/frame-ui/src/fit.rs:82-87 | Opposite margins, or opposite cut-off strips, are equal but for one pixel on the right or at the bottom, because the division is toward zero |
| PhotoFit.CropLeavesNoBlack | packages/frame-ui/src/fit.rs:89-105 | In a crop every panel pixel comes from the photo |
| PhotoFit.ContainShowsEveryPixelOnce | packages/frame-ui/src/fit.rs:89-105 | In a letterbox every pixel of the scaled photo is shown by exactly one pixel of the panel |
| PhotoFit.CropMeansWithinAQuarter | packages/frame-ui/src/fit.rs:56-62 | Under any accurate rounding a photo is cropped if, in whole numbers, its shape is within a quarter of the panel's by one part in 262144, and only if it is no further out than that |
| PhotoFit.ExactCropMeansWithinAQuarter | custom_components/photoframe_bridge/renderer.py:137-153 | Without rounding the limit is exactly a quarter, in both directions |
| PhotoFit.CropLosesLittle | packages/frame-ui/src/fit.rs:56-76 | A crop never cuts away more than a fifth of the scaled width or a quarter of the scaled height, up to half a pixel, under any accurate rounding |
| PhotoFit.StretchedBack | packages/frame-ui/src/fit.rs:67-76 | Scaling a side by the ratio of target to side gives the target back to within four roundings |
| PhotoFit.CopyPixel | packages/frame-ui/src/fit.rs:94-104 | One step of the copy loop, covered or not |
| PhotoFit.Compose | packages/frame-ui/src/fit.rs:79-105 | The copy loop: every canvas pixel is the photo's where it is covered and black elsewhere |
| PhotoFit.FitToPanel | packages/frame-ui/src/fit.rs:49-109 | The whole fit: refused if and only if a side is zero, and otherwise every panel pixel packed from the placed photo |
| MediaWalk.VisitsAreFresh | custom_components/photoframe_bridge/providers/media_source.py:232-240 | No folder is browsed twice, on any graph, cyclic ones included |
| MediaWalk.VisitsAreExactlyReachable | custom_components/photoframe_bridge/providers/media_source.py:226-265 | The walk browses exactly the folders reachable from the selection, once each |
| MediaWalk.AllItemsAreTheReachablePhotos | custom_components/photoframe_bridge/providers/media_source.py:226-265 | Uncapped, a photo is yielded if and only if a folder lists it that the chosen ones lead to, or the top of the library if none is chosen |
| MediaWalk.WalkIsNearestFirst | custom_components/photoframe_bridge/providers/media_source.py:232-255 | Folders are browsed by distance from the chosen ones, on any graph, so a capped walk has not gone deep while something shallower was left |
| MediaWalk.ListItems | custom_components/photoframe_bridge/providers/media_source.py:226-265 | The generator terminates and yields exactly the first `cap` photos of the uncapped walk |
| FolderPruning.PruningKeepsTheOutermost | custom_components/photoframe_bridge/config_flow.py:133-145 | Kept: exactly the ticked ids of which no other ticked id is a proper prefix; each ticked id starts with a kept one |
| FolderPruning.PruningKeepsReachExactly | custom_components/photoframe_bridge/config_flow.py:133-145 | Pruning keeps the same folders in reach if and only if each dropped folder is reachable from a kept one |
| FolderPruning.PruningKeepsReach | custom_components/photoframe_bridge/config_flow.py:133-145 | That holds when a prefix means containment |
| FolderPruning.PruningKeepsEveryPhoto | custom_components/photoframe_bridge/config_flow.py:133-145 | Then the walk yields the same photos the same number of times, pruned or not |
| FolderPruning.SiblingIsLost | custom_components/photoframe_bridge/config_flow.py:133-145 | "Trip 2" is taken for a child of "Trip" and its photos are lost |
| FolderListing.Collector.Walk | custom_components/photoframe_bridge/config_flow.py:337-348 | The recursive walk appends the capped preorder traversal to the shared list, and fails exactly when that meets an unreadable folder before the list is full |
| FolderListing.CollectTree | custom_components/photoframe_bridge/config_flow.py:326-351 | The listing is the first 300 entries of the traversal limited to depths 0 to 3, on cyclic sources too |
| FolderListing.PreorderLists | custom_components/photoframe_bridge/config_flow.py:337-348 | When nothing fails, the traversal lists a folder at a depth if and only if it lies exactly that far down |
| FolderListing.PreorderFails | custom_components/photoframe_bridge/config_flow.py:337-348 | The traversal fails if and only if the start or a folder at most three levels below it cannot be browsed |
| PlayOrder.PhotoPool.Reshuffle | custom_components/photoframe_bridge/coordinator.py:79-88 | Takes up the dealt permutation and starts over |
| PlayOrder.PhotoPool.Advance | custom_components/photoframe_bridge/coordinator.py:90-99 | Returns the next photo of the order, reshuffling exactly when it is used up |
| PlayOrder.PhotoPool.Previous | custom_components/photoframe_bridge/coordinator.py:101-105 | Steps two back, not below the start, and advances |
| PlayOrder.PhotoPool.Replace | custom_components/photoframe_bridge/coordinator.py:262-263 | New items, a fresh permutation of them, cursor at the start |
| PlayOrder.OrderStaysAPermutation | custom_components/photoframe_bridge/coordinator.py:71-105 | Over any run of replacements, advances and steps back, the order stays a permutation and every photo handed out is one of the pool's |
| PlayOrder.BackShowsThePhotoBefore | custom_components/photoframe_bridge/coordinator.py:101-105 | Going back after two advances of one order repeats the first of them |
| PlayOrder.BackRetracesTheOrder | custom_components/photoframe_bridge/coordinator.py:101-105 | Going back again and again shows what the order has given in reverse, and then stays at its first photo |
| PlayOrder.EachEpochIsAPermutation | custom_components/photoframe_bridge/coordinator.py:79-99 | Each epoch shows every photo exactly once |
| PlayOrder.PermutationCovers | custom_components/photoframe_bridge/coordinator.py:79-88 | A dealt order leaves no photo out |
| PlayOrder.EveryPhotoComesRound | custom_components/photoframe_bridge/coordinator.py:79-99 | Any 2n-1 consecutive advances show all n photos, whatever the shuffles deal |
| Coordinator.BuildPool | custom_components/photoframe_bridge/coordinator.py:231-241 | The de-duplicating loop computes the first appearance of each image |
| Coordinator.DedupedIsSound | custom_components/photoframe_bridge/coordinator.py:231-241 | The pool holds only listed images |
| Coordinator.DedupedIsComplete | custom_components/photoframe_bridge/coordinator.py:231-241 | Every listed image is in the pool under its key |
| Coordinator.DedupedIsOncePerKey | custom_components/photoframe_bridge/coordinator.py:231-241 | No key is in the pool twice |
| Coordinator.DedupedIsTheFirsts | custom_components/photoframe_bridge/coordinator.py:231-241 | The pool is the first image under each key, in the order listed, and is empty if and only if no image is listed |
| Coordinator.PoolIsTheReachablePhotos | custom_components/photoframe_bridge/coordinator.py:231-241 | Below the cap the pool built from the walk is each reachable photo exactly once and nothing else |
| Coordinator.FrameCoordinator.RefreshPool | custom_components/photoframe_bridge/coordinator.py:221-301 | On every answer of the source: an error leaves the pool and the play order as they were; a listing with images replaces both; one without brings the bundled photos up, or empties the pool if they are the source |
| Coordinator.FrameCoordinator.OnTick | custom_components/photoframe_bridge/coordinator.py:170-199 | A tick refreshes if and only if one is due |
| Coordinator.PoolIsTheLastListing | custom_components/photoframe_bridge/coordinator.py:221-301 | After any run of refreshes the pool is the images of the last complete listing, or the bundled photos if it had none, and the fallback flag says which |
| Coordinator.CounterCountsFailures | custom_components/photoframe_bridge/coordinator.py:242-285 | The failure counter equals the number of refreshes since the last that provided photos, and an error is remembered until then |
| Coordinator.RefreshIsDueExactly | custom_components/photoframe_bridge/coordinator.py:188-219 | When the next refresh is due, after any run: at once, after an hour, or while the bundled photos stand in after 2, 4, 8, 16 and then 30 minutes |
| Coordinator.PoolIsNeverMixed | custom_components/photoframe_bridge/coordinator.py:255-301 | The pool holds one source's photos at a time, and the fallback flag says which |
| Coordinator.EmptyOnlyBeforeTheFirstListing | custom_components/photoframe_bridge/coordinator.py:221-301 | With bundled photos to stand in, the pool is empty if and only if every refresh so far failed |
| Coordinator.WalksAreApart | custom_components/photoframe_bridge/coordinator.py:175-199 | Tick-driven walks of the source are at least 120 seconds apart |
| Coordinator.OneRetry | custom_components/photoframe_bridge/coordinator.py:186-199 | A retry that provides nothing leaves the bundled photos up and comes no sooner than its pause |
| Coordinator.RetriesTakeAtLeast | custom_components/photoframe_bridge/coordinator.py:186-199 | k such retries take at least the sum of the capped doubling pauses |
| Coordinator.BackoffLevelsOff | custom_components/photoframe_bridge/coordinator.py:195-199 | From the fifth failure on, the pause is 1800 seconds |
| Coordinator.MediaSourceFallsBackExactly | custom_components/photoframe_bridge/coordinator.py:255-301 | A refresh from the media source provides photos if and only if one can be reached, and puts the bundled photos up if and only if none can |
| Coordinator.UnreachableSourceIsStoodInFor | custom_components/photoframe_bridge/providers/media_source.py:242-248 | With nothing readable, the first refresh puts the bundled photos up and the next attempt is due two minutes later |
| Coordinator.FirstErrorMeansAnHourBlank | custom_components/photoframe_bridge/coordinator.py:242-248 | If a source reports an error on the first refresh, the pool stays empty, without the bundled photos, until an hour has gone by |
| FrameSessions.FrameSession.RecordSent | custom_components/photoframe_bridge/control_server.py:66-69 | The history becomes the newest 64 of what it was plus the id |
| FrameSessions.ControlServer.SendRender | custom_components/photoframe_bridge/control_server.py:147-186 | An id still held is refused; another is recorded before it is sent, so a failed send counts as sent |
| FrameSessions.ControlServer.Register | custom_components/photoframe_bridge/control_server.py:238-243 | A connection opens: its frame is reached on it and on no other, over the whole history of openings and closings |
| FrameSessions.ControlServer.Unregister | custom_components/photoframe_bridge/control_server.py:245-247 | A connection closes: its frame is reached on no connection at all, even if it was reached on a newer one |
| FrameSessions.ControlServer.Session | custom_components/photoframe_bridge/control_server.py:105-106 | The session found for a frame is the one whose opening was the last thing to happen to any of the frame's connections |
| FrameSessions.HistoryIsTheNewestAccepted | custom_components/photoframe_bridge/control_server.py:62-69 | Over any run of offers the history is the newest 64 accepted ids |
| FrameSessions.HistoryIsDistinct | custom_components/photoframe_bridge/control_server.py:62-69 | It never holds an id twice |
| FrameSessions.RepeatsAreFarApart | custom_components/photoframe_bridge/control_server.py:162-172 | Any 65 consecutively accepted ids are different |
| FrameSessions.SmallPoolFallsSilent | custom_components/photoframe_bridge/control_server.py:162-172 | From at most 64 photos a connection is sent each at most once, and once it has had all of them nothing is ever accepted again |
| FrameSessions.PassSendsTheExcess | custom_components/photoframe_bridge/control_server.py:162-172 | A pass over n different photos sends at least n - 64 |
| FrameSessions.ProgressNeedsMoreThanTheHistory | custom_components/photoframe_bridge/control_server.py:162-172 | A pass over n photos is sure to send something if and only if n > 64 |
| FrameSessions.ReachedOnlyIfNothingClosedSince | custom_components/photoframe_bridge/control_server.py:238-247 | A frame is reached on a connection if and only if opening it was the last thing to happen to any of the frame's connections |
| FrameSessions.LateCloseCutsOffTheNewConnection | custom_components/photoframe_bridge/control_server.py:245-247 | After any history, an old socket closing late removes the newer session |
| Delivery.FrameDelivery.Show | custom_components/photoframe_bridge/coordinator.py:372-391 | Sends one photo; only one that went out becomes the current photo |
| Delivery.FrameDelivery.SendSpares | custom_components/photoframe_bridge/coordinator.py:442-463 | The sending loop shared by filling and refilling: skips what cannot be prepared, stops without an address, counts what went out |
| Delivery.FrameDelivery.FillFrameCache | custom_components/photoframe_bridge/coordinator.py:423-464 | Sends at most eight, and nothing to an absent frame or from an empty pool |
| Delivery.FrameDelivery.TopUp | custom_components/photoframe_bridge/coordinator.py:466-501 | Sends two spares to a connected frame, without changing the current photo |
| Delivery.FrameDelivery.ShowNext | custom_components/photoframe_bridge/coordinator.py:393-421 | Advances until a photo goes out, for at most ten photos or one pass, and then sends spares |
| Delivery.FrameDelivery.ShowPrevious | custom_components/photoframe_bridge/coordinator.py:503-505 | Steps the pool back and sends what it finds |
| Delivery.CallsAreAttempts | custom_components/photoframe_bridge/coordinator.py:393-501 | Any sequence of rotations and fillings is one series of single attempts |
| Delivery.ConsumersShareOneOrder | custom_components/photoframe_bridge/coordinator.py:393-501 | Those consumers play one shuffled order between them, and the connection holds what their offers make of it |
| Delivery.OfferingIsHistory | custom_components/photoframe_bridge/control_server.py:162-172 | From a new connection that is the history of a run of offers, so the laws above apply to the consumers together |
| Consumers.BatchExactly | custom_components/photoframe_bridge/coordinator.py:440-464 | Sending spares is that many attempts, up to one without an address, and counts exactly those that went out |
| Consumers.FillingExactly | custom_components/photoframe_bridge/coordinator.py:423-501 | A filling draws as many photos as asked for, eight at most, and a top-up two; neither draws any for a frame that is away |
| Consumers.RotatedExactly | custom_components/photoframe_bridge/coordinator.py:393-408 | A rotation passes over photos that cannot be prepared, are held or are not taken, and shows exactly the first that goes out |
| Consumers.BlankRotationTries | custom_components/photoframe_bridge/coordinator.py:393-421 | A rotation that shows nothing has tried ten photos, or as many as there are; with at most ten and the order at its start, every one of them |
| Consumers.BackedUpExactly | custom_components/photoframe_bridge/coordinator.py:503-505 | Going back is one attempt from two places earlier, or from the start of the order; with nothing played yet it is nothing |
| Silence.SilenceEnds | custom_components/photoframe_bridge/coordinator.py:393-421 | Whatever went before, failures included, with more than 64 sendable photos any 129 consecutive attempts send something new |
| Silence.SilenceIsExactlyThatLong | custom_components/photoframe_bridge/coordinator.py:393-421 | Over everything rotations and fillings can make of a new connection or of a refreshed pool, with every photo sendable: something new is sure to go out within k attempts if and only if n > 64 and k > 64 + max(0, 128 - n) |
| Silence.StepsAreFair | custom_components/photoframe_bridge/control_server.py:162-172 | What such a connection holds of the order's remaining photos is bounded by what the order has already given, step by step |
| Silence.FairSilenceEnds | custom_components/photoframe_bridge/coordinator.py:393-501 | So no silence outlasts that bound |
| Silence.SilentRun | custom_components/photoframe_bridge/coordinator.py:393-501 | A run of calls from a new connection that reaches each length of silence up to the bound |
| Silence.AttemptsAreCalls | custom_components/photoframe_bridge/coordinator.py:423-464 | Every series of attempts is the work of some series of calls |
| Silence.FailedIsSilent | custom_components/photoframe_bridge/coordinator.py:393-421 | A rotation over sendable photos shows nothing if and only if all it tried were still held by the connection |
| Silence.RotationsShowExactly | custom_components/photoframe_bridge/coordinator.py:393-421 | One of t consecutive rotations is sure to show a photo if and only if n > 64 and 10 t > 64 + max(0, 128 - n) |
| Silence.RotationsInNumbers | custom_components/photoframe_bridge/coordinator.py:393-421 | From 128 photos on that is seven rotations and not six; with 65 it is thirteen and not twelve |
| GoingBack.GoingBackAfterARotation | custom_components/photoframe_bridge/coordinator.py:393-421 | Asked for the previous photo right after any rotation that showed one: which photo is found in every case, and that it goes out if and only if it can be sent and the connection has let go of it |
| GoingBack.RotationShows | custom_components/photoframe_bridge/coordinator.py:403-408 | A rotation that shows a photo is some attempts, the last of which sent it, and then the spares |
| GoingBack.SparesAre | custom_components/photoframe_bridge/coordinator.py:466-501 | Where the order and the history stand after the spares, in every case |
| GoingBack.FreeAgainExactly | custom_components/photoframe_bridge/control_server.py:162-172 | Whether the photo found is still held, told from what was held before the spares |
| GoingBack.WhenGoingBackGoesBack | custom_components/photoframe_bridge/coordinator.py:101-105 | A photo shown earlier in the order is found if and only if it was the very last one and no spare was drawn, or a shuffle has just dealt it first |
| PreparedPhotos.PhotoStore.Read | custom_components/photoframe_bridge/photo_store.py:96-101 | Returns the photo and makes it the most recently used |
| PreparedPhotos.PhotoStore.Put | custom_components/photoframe_bridge/photo_store.py:103-124 | Writes under a temporary name, renames, and evicts down to the limit |
| PreparedPhotos.PhotoStore.EvictIfNeeded | custom_components/photoframe_bridge/photo_store.py:139-154 | The unlinking loop removes exactly the excess with the oldest access times |
| PreparedPhotos.PlacedGoesLastExactly | custom_components/photoframe_bridge/photo_store.py:103-116 | A photo put in place joins the end of the list if and only if every other photo was used before its time stamp |
| PreparedPhotos.PutIsLruExactly | custom_components/photoframe_bridge/photo_store.py:103-154 | So a whole put, eviction included, acts on the list if and only if that is so or no photos are kept |
| PreparedPhotos.StoreIsLru | custom_components/photoframe_bridge/photo_store.py:96-154 | Over any run of puts, reads and crashes, the store holds at every moment exactly what an abstract least-recently-used list holds (photos, bytes last put, order) if and only if every put stamps its photo later than all others |
| PreparedPhotos.TracksToTheEnd | custom_components/photoframe_bridge/photo_store.py:96-154 | In particular the two agree at the end of such a run |
| PreparedPhotos.WithoutCutsAlwaysNewest | custom_components/photoframe_bridge/photo_store.py:103-116 | A store in which no write is cut short always meets that condition |
| PreparedPhotos.ContentsAreTheFiles | custom_components/photoframe_bridge/photo_store.py:96-101 | A photo is held with some bytes if and only if its file has them |
| PreparedPhotos.PhotosAreWhole | custom_components/photoframe_bridge/photo_store.py:103-116 | Over every run, leftovers included, every visible photo is exactly what the last put of it wrote |
| PreparedPhotos.PutStaysWithinLimit | custom_components/photoframe_bridge/photo_store.py:139-154 | After a put there are at most the maximum |
| PreparedPhotos.PutKeepsItsPhotoExactly | custom_components/photoframe_bridge/photo_store.py:103-154 | The photo just put survives its own eviction if and only if the photos used before its time stamp make up the excess; always, if no leftover temporary file was met |
| PreparedPhotos.LeftoverLosesThePhoto | custom_components/photoframe_bridge/photo_store.py:103-154 | A run from an empty store in which a put throws away its own photo, where the list would keep it |
| ControlPlane.ExponentialBackoff.NextDelay | packages/frame-firmware/src/runtime.rs:69-73 | Returns the current pause and doubles it, up to the longest |
| ControlPlane.ExponentialBackoff.Reset | packages/frame-firmware/src/runtime.rs:75-77 | Back to the first pause |
| ControlPlane.DelayDoublesUpToTheLongest | packages/frame-firmware/src/runtime.rs:52-78 | The k-th pause in a row is min(max, initial * 2^k) |
| ControlPlane.RunControlPlaneLoop | packages/frame-firmware/src/runtime.rs:715-793 | The nested connection loops refine a one-pass-at-a-time state machine, over every script of outcomes |
| ControlPlane.WireIsInOrder | packages/frame-firmware/src/runtime.rs:715-793 | What went out over all connections and what was lost are each in the order queued, no place of the queue twice |
| ControlPlane.FewAreLostPerPause | packages/frame-firmware/src/runtime.rs:715-793 | In any stretch of a run at most two statuses are lost for each pause in it, one as it begins and one as it ends |
| ControlPlane.IntroductionComesFirst | packages/frame-firmware/src/runtime.rs:515-562 | Each connection made carries the introduction first and only once |
| ControlPlane.NothingIsSentTwice | packages/frame-firmware/src/runtime.rs:715-793 | Every queued status is sent once, lost once, or still queued |
| ControlPlane.PaceIsKept | packages/frame-firmware/src/runtime.rs:715-793 | Over every run the pause is that of the current streak of failures, and losses are bounded |
| ControlPlane.ConnectedNeedsAConnection | packages/frame-firmware/src/runtime.rs:715-793 | The frame counts as connected only while a connection is held or the loop has ended, never while pausing or dialling |
| ControlPlane.OnePassLeads | packages/frame-firmware/src/runtime.rs:724-792 | When a pass ends the loop, loses the connection, holds it or dials, told from the queue and the answers |
| ControlPlane.OnePassSays | packages/frame-firmware/src/runtime.rs:724-787 | What each pass makes of the controller phase |
| ControlPlane.NothingElseMoves | packages/frame-firmware/src/runtime.rs:724-792 | Over every run: forwarded are exactly the renders and commands heard, sent exactly the statuses whose sending worked, lost exactly those whose sending failed or that cut a pause short, in order and once each |
| ControlPlane.ConnectedMeansHeard | packages/frame-firmware/src/runtime.rs:724-787 | The frame counts as connected if and only if a request or a claimed registration was heard and since then neither the connection failed nor an unclaimed one was heard |
| ControlPlane.RetryDelays | packages/frame-firmware/src/runtime.rs:715-793 | The retry after k in a row waits min(30 s, 1 s * 2^k) |
| ControlPlane.RunRenderControllerLoop | packages/frame-firmware/src/runtime.rs:795-867 | The render loop sends the replies of each request in turn |
| ControlPlane.RepliesAnswerEveryRequest | packages/frame-firmware/src/runtime.rs:795-867 | Parsed by a reader that knows only statuses, the replies are exactly one answer per request, in order, each under its request's correlation id, a start directly followed by its own ending |
| CaptiveDns.BuildCaptiveDnsResponse | packages/frame-captive-portal/src/lib.rs:310-362 | The responder stays within bounds and builds the specified reply |
| CaptiveDns.RepliesToReadableQuestions | packages/frame-captive-portal/src/lib.rs:310-329 | With labels of at most 63 bytes, a reply is given if and only if there is a header, a question is announced and the first can be read |
| CaptiveDns.ReplyAsksTheSame | packages/frame-captive-portal/src/lib.rs:344-350 | The reply's first question reads as the query's |
| CaptiveDns.ReplyReadsBack | packages/frame-captive-portal/src/lib.rs:338-362 | A reply to a one-question query reads in full (RFC 1035, sections 4.1.1 to 4.1.4) as the same id and question and, if and only if it is type A class IN, one A record for that name with the portal's address |
| CaptiveDns.ReadableExactlyForOneQuestion | packages/frame-captive-portal/src/lib.rs:315-318 | A reply is a well-formed message if and only if the query announced exactly one question |

## Left out

- Hardware and drivers: the display bus and cache maintenance, touch, the SD driver, thread placement, Wi-Fi and Bluetooth. A transfer to the panel is one step that succeeds or leaves arbitrary pixels.
- HTTP, WebSocket and JSON transport, tokens and download addresses. Messages are datatypes already parsed; a download is the parameter `fetched`, an address the flag `addressed`.
- Image decoding and encoding, EXIF and resampling. A resized photo is any grid of the stated size (`resample`).
- PhotoFit.CropMeansWithinAQuarter: shapes within one part in 262144 of the limit may go either way, because which way depends on the rounding. Rounding is any function that keeps zero and order and errs by at most one part in 2^24; sides of photos go up to 2^32 and of the panel up to 8192.
- PhotoFit.ExactCropMeansWithinAQuarter: the case without rounding; the code divides in floating point, which is PhotoFit.CropMeansWithinAQuarter.
- Pillow's own fitting of photos on the controller, which follows the same choice of treatment.
- SHA-256 and random shuffling. Photo ids are given by a naming function, and a shuffle deals any permutation (`dealt`).
- The 80% limit on the card's fill is an arbitrary refusal (`refuses`).
- A card on which removing a file fails: `take_oldest` ignores that, and the model assumes removals work.
- A listing of the cache directory that fails: `entries` then answers as for an empty card, so a photo already held could be stored twice and a new one could get order number 0 and sort first. The model assumes listings work.
- CardCache.CardStaysSound: stated for listings that work, and while fewer than 2^64 photos have ever landed; beyond that the order number itself overflows.
- Playlist.OnePlaylist: stated for spares that the card stores or declines and for order numbers below 10^12; a spare whose store fails is the subject of Playlist.FallbackJumpsTheQueue, and concurrent top-ups of TopUpRaces.
- TopUpRaces.KeepsEveryPhotoExactly: each take is one atomic step; two threads reading one file before either removes it are not modelled. `m` is at most 3, which is all the buffer holds. Stores are those that the card takes.
- OfflineFrame.PanelShowsThePlaylist: for fewer than 2^64 changes since the panel was last drawn, counting one for each turn of the run, because of PanelSync.WrapHidesTheChange. Other threads act between a reconciliation and the rotation after it, but a rotation (top up, advance, top up), a tap and a stored spare are each one turn; what interleaving inside them can do is the subject of TopUpRaces.
- The order of events with photos shown or set by the controller between offline runs: the theorems start from any state those leave.
- Drawing the setup screens. What each draws is the parameter `art`, of the panel's size.
- The slideshow from the owner's own `media` folder, which pushes and never advances.
- The pacing of requests for more photos and health reports.
- Locks poisoned by a panicking thread.
- Overlapping refreshes: refreshes of one pool are modelled one after another.
- Delivery.ConsumersShareOneOrder: consumers take turns whole call by whole call; preparing a photo in one while another advances the pool is not modelled.
- Refreshing the pool in the middle of a rotation or filling. `Delivery`, `Silence` and `GoingBack` keep the pool fixed; a refresh on an open connection is a new start for `Silence`, which allows whatever the connection then holds.
- `PhotoStore.get`, `delete` and `purge`, concurrent puts of one photo, and unlinks that fail. File names are a datatype with one constructor for photos and one for temporary files, and every access gets a later time stamp than the one before.
- Browsing for collections and the levels of the folder browser (`async_list_collections`, `async_browse`).
- Recognising a photo by its media class or file suffix: a listing says which of its children are photos.
- The frame token that a registration hands over, and the contents of the introduction.
- CaptiveDns.ReplyReadsBack: for labels of at most 63 bytes, as section 2.3.4 of RFC 1035 requires; longer lengths, which the code skips like any other, are not read.
- Configuration forms, diagnostics, logging, services, and the planned messages described only in documents.
