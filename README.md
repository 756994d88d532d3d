# Animated greeting page: a Dafny model of its state machines

The page walks through five screens: welcome, letter, photo gallery,
question and celebration. Celebration's replay leads back to welcome. Under
the presentation sit a few small event-driven state machines, and this
project models and verifies them:

- **The screen orchestrator** (`src/pages/Index.tsx`). Module `Screens` holds
  the five-screen cycle as pure functions: which presenter owns each
  callback, and what each callback writes. Class `Index.App` holds the
  current screen and at most one presenter with modelled state: the letter,
  the gallery or the question, whichever is on screen. Welcome and
  celebration have no modelled state, so on them no presenter is held.
  Entering a screen mounts a fresh presenter object, so that presenter's
  local state starts over.
- **The typewriter letter** (`LoveLetter.tsx`). Class `LoveLetter.Letter`
  models the envelope flag, the revealed prefix and the one-way
  typing-complete flag. Each firing of the 50 ms timeout is a call of
  `Tick`.
- **The gallery navigator** (`PhotoGallery.tsx`). Class
  `PhotoGallery.Gallery` models the photo index with the next and previous
  arrows, the dots and the disabled flags.
- **The evasive NO button** (`TheQuestion.tsx`). Class
  `TheQuestion.Question` models the saturating attempt counter, the label
  and the aside. The jump position is a function of the container size and
  six random draws, using exact reals.
- **The heart layer** (`FloatingHearts.tsx`). Class `FloatingHearts.Hearts`
  models the ambient pool, the five-heart click bursts with ids built from
  the timestamp, and the deferred removal of each burst by id. The pending
  removal timeouts form a queue, oldest first, and every click heart is
  covered by one of them, so the click hearts cannot outlive their
  removals.

Several inputs become parameters: timers, `Math.random`, `Date.now`, the
container's bounding box and the click position in viewport percent. React's
"effect runs after the render" is modelled as one atomic step: each state
change together with the effect it triggers.

Behaviour of the code worth knowing, all of it modelled as written:
- The gallery's continue button calls `onComplete` at every index, not only
  at the last photo (`PhotoGallery.tsx:124-130`).
- The attempt counter saturates at the list length minus one, i.e. 9
  (`TheQuestion.tsx:50`).
- The aside shows when `noAttempts >= 3`, i.e. from the third evasion on
  (`TheQuestion.tsx:125`).
- The reserved margin is 140 + 40 horizontally and 56 + 40 vertically.
  Nothing guards a container smaller than that: the position then goes
  negative, as `TheQuestion.PositionInNarrowContainer` shows.
- Replay only sets the screen to welcome. Typing and evasion state "reset"
  only because the next visit mounts fresh presenters.
- Burst ids are unique within a burst but not across bursts. Two clicks
  less than 5 ms apart share ids, and the first expiry also removes hearts
  of the second (`FloatingHearts.ExpiryHitsCloseBurst`).
- With an empty message, the typing-complete flag is set while the
  envelope is still closed. Continue still stays hidden until the envelope
  is opened.

## Model

| member | source | states |
|---|---|---|
| `Screens.TriggerOf` | src/pages/Index.tsx:62-100 | each screen renders one presenter, so exactly one callback can fire on it |
| `Screens.Step` | src/pages/Index.tsx:52-100 | a callback moves the screen only when its presenter is the one on screen; then it writes the next screen of the cycle, otherwise nothing changes; no step skips a screen |
| `Screens.CycleOfFive` | src/pages/Index.tsx:52-99 | five steps along the cycle return to the start, and fewer do not |
| `Screens.NextNMod` | src/pages/Index.tsx:52-99 | the cycle has period five |
| `Screens.ValidRunFollowsCycle` | src/pages/Index.tsx:52-99 | a run of valid callbacks advances one screen per callback |
| `Screens.ForeignTriggersIgnored` | src/pages/Index.tsx:62-100 | callbacks of presenters that are not on screen leave the screen unchanged |
| `Screens.RunIsCyclePosition` | src/pages/Index.tsx:52-100 | any mix of callbacks ends on the screen reached by advancing once per accepted callback |
| `Screens.ScreenFromWelcome` | src/pages/Index.tsx:50-100 | from the start, the screen is fixed by the number of accepted callbacks modulo five |
| `Index.App.constructor` | src/pages/Index.tsx:50-59 | the page starts on welcome with no presenter state and a fresh heart layer of 12 ambient hearts |
| `Index.App.Continue` | src/pages/Index.tsx:62-77 | welcome's continue moves to letter and mounts a closed, empty letter; elsewhere nothing changes |
| `Index.App.LetterComplete` | src/pages/Index.tsx:71-85 | the letter's callback moves to gallery only when the letter is on screen with its continue visible, and it mounts a gallery at index 0 |
| `Index.App.GalleryComplete` | src/pages/Index.tsx:79-92 | the gallery's callback moves to question at any index and mounts a question with 0 attempts |
| `Index.App.Yes` | src/pages/Index.tsx:87-100 | YES on the question moves to celebration and unmounts the question |
| `Index.App.Replay` | src/pages/Index.tsx:52-54 | replay from celebration returns to welcome; elsewhere nothing changes |
| `Index.App.OpenEnvelope` | src/components/valentine/LoveLetter.tsx:43 | an envelope click reaches only the mounted letter, opens it and changes nothing else |
| `Index.App.LetterTick` | src/components/valentine/LoveLetter.tsx:15-24 | a typing timeout reaches only the mounted letter; an unmounted letter has no pending timeout |
| `Index.App.NextPhoto` | src/components/valentine/PhotoGallery.tsx:20-24 | the next arrow moves the mounted gallery's index as `NextIndex` says, and the screen stays |
| `Index.App.PrevPhoto` | src/components/valentine/PhotoGallery.tsx:26-30 | the previous arrow moves the mounted gallery's index as `PrevIndex` says, and the screen stays |
| `Index.App.SelectPhoto` | src/components/valentine/PhotoGallery.tsx:110-113 | a dot click sets the mounted gallery's index to that dot |
| `Index.App.NoButtonApproached` | src/components/valentine/TheQuestion.tsx:118-119 | an evasion updates only the question's counter and position and never the screen |
| `Index.App.Click` | src/pages/Index.tsx:59 | a window click adds a burst and schedules its removal on every screen but celebration, and does nothing there |
| `Index.App.HeartsExpire` | src/components/valentine/FloatingHearts.tsx:51-53 | the oldest pending removal timeout fires whatever screen is shown by then: it filters the click hearts by its burst's ids, and once none is pending no click heart is left |
| `Index.FullPass` | src/pages/Index.tsx:50-100 | a complete pass: continue, open, type the whole message, continue, continue, yes, replay; it ends on welcome |
| `LoveLetter.TickLength` | src/components/valentine/LoveLetter.tsx:16-19 | a timeout adds exactly one character iff the letter is open and the prefix is short of the message; otherwise nothing changes; the length never exceeds the message |
| `LoveLetter.TicksLength` | src/components/valentine/LoveLetter.tsx:15-24 | repeated timeouts never shrink the prefix and never pass the message length |
| `LoveLetter.TicksWhileOpen` | src/components/valentine/LoveLetter.tsx:16-19 | while open, k timeouts reveal min(shown + k, length) characters |
| `LoveLetter.TicksWhileClosed` | src/components/valentine/LoveLetter.tsx:16 | while closed, timeouts reveal nothing |
| `LoveLetter.FullAfterExactlyLength` | src/components/valentine/LoveLetter.tsx:16-22 | from an empty prefix the whole message shows after k timeouts iff k >= its length |
| `LoveLetter.Letter.constructor` | src/components/valentine/LoveLetter.tsx:11-13 | a letter mounts closed with empty text; typing counts as complete at once only for an empty message |
| `LoveLetter.Letter.ContinueVisible` | src/components/valentine/LoveLetter.tsx:87-139 | continue is visible exactly when the letter is open and shows the whole message |
| `LoveLetter.Letter.OpenEnvelope` | src/components/valentine/LoveLetter.tsx:43 | opening sets `isOpen` to true and changes nothing else |
| `LoveLetter.Letter.Tick` | src/components/valentine/LoveLetter.tsx:15-24 | one timeout extends the prefix as `TickLength` says; the text stays a prefix of the message and the old text a prefix of the new; complete iff full, never reset |
| `LoveLetter.Letter.RunTimer` | src/components/valentine/LoveLetter.tsx:15-24 | k firings of the self-rescheduling timeout reach length `TicksLength(k)` and keep every invariant |
| `LoveLetter.ReadWholeLetter` | src/components/valentine/LoveLetter.tsx:11-24 | opening a fresh letter and firing the timer once per character shows the whole message, typing complete, continue visible |
| `PhotoGallery.NextIndex` | src/components/valentine/PhotoGallery.tsx:20-24 | next increments exactly when the index is below the last photo, is a no-op at the last, and keeps the index in range |
| `PhotoGallery.PrevIndex` | src/components/valentine/PhotoGallery.tsx:26-30 | previous decrements exactly when the index is above 0 and is a no-op at 0 |
| `PhotoGallery.NextTimes` | src/components/valentine/PhotoGallery.tsx:20-24 | repeated next presses never decrease the index |
| `PhotoGallery.PrevTimes` | src/components/valentine/PhotoGallery.tsx:26-30 | repeated previous presses never increase the index and never go below 0 |
| `PhotoGallery.NextTimesStopsAtLast` | src/components/valentine/PhotoGallery.tsx:20-24 | k next presses from index i reach min(i + k, n - 1) |
| `PhotoGallery.PrevTimesStopsAtFirst` | src/components/valentine/PhotoGallery.tsx:26-30 | k previous presses from index i reach max(i - k, 0) |
| `PhotoGallery.FromFirstToLast` | src/components/valentine/PhotoGallery.tsx:18-32 | from index 0, n - 1 next presses reach the last photo and further presses change nothing |
| `PhotoGallery.Gallery.constructor` | src/components/valentine/PhotoGallery.tsx:18 | the gallery mounts at index 0 |
| `PhotoGallery.Gallery.NextDisabled` | src/components/valentine/PhotoGallery.tsx:95-97 | the next arrow is disabled iff pressing it would change nothing |
| `PhotoGallery.Gallery.PrevDisabled` | src/components/valentine/PhotoGallery.tsx:83-85 | the previous arrow is disabled iff pressing it would change nothing |
| `PhotoGallery.Gallery.NextPhoto` | src/components/valentine/PhotoGallery.tsx:20-24 | the index becomes `NextIndex` of the old index and stays in range |
| `PhotoGallery.Gallery.PrevPhoto` | src/components/valentine/PhotoGallery.tsx:26-30 | the index becomes `PrevIndex` of the old index and stays in range |
| `PhotoGallery.Gallery.SelectDot` | src/components/valentine/PhotoGallery.tsx:110-113 | a dot sets the index to exactly its position |
| `PhotoGallery.FourPhotoScenario` | src/components/valentine/PhotoGallery.tsx:18-32 | with four photos, three next presses from 0 reach index 3 with next disabled, and a fourth press leaves it there |
| `TheQuestion.NextAttempts` | src/components/valentine/TheQuestion.tsx:50 | an evasion sets the counter to min(counter + 1, 9): it never decreases, never exceeds 9, and stays put only at 9 |
| `TheQuestion.AttemptsAfter` | src/components/valentine/TheQuestion.tsx:50 | repeated evasions keep the counter between its start and 9 |
| `TheQuestion.Label` | src/components/valentine/TheQuestion.tsx:14-25 | the label is an entry of the ten-message list: "No" at 0, "Just say yes!" at 9 |
| `TheQuestion.AttemptsFromZero` | src/components/valentine/TheQuestion.tsx:11-50 | k evasions from counter n give min(n + k, 9) |
| `TheQuestion.LabelAndAsideAfter` | src/components/valentine/TheQuestion.tsx:122-125 | after k evasions the label is "Just say yes!" iff k >= 9, and the aside shows iff k >= 3 |
| `TheQuestion.AxisWithin` | src/components/valentine/TheQuestion.tsx:38-46 | with a non-negative bound and draws in [0,1), every branch of a coordinate, biased or not, lies in [0, max] |
| `TheQuestion.AxisWithinNegative` | src/components/valentine/TheQuestion.tsx:35-46 | with a negative bound every branch lies in [max, 0] |
| `TheQuestion.PositionWithinBounds` | src/components/valentine/TheQuestion.tsx:30-47 | with draws in [0,1) and maxX, maxY >= 0 the new position lies in [0,maxX] x [0,maxY] |
| `TheQuestion.PositionInNarrowContainer` | src/components/valentine/TheQuestion.tsx:35-43 | in a container narrower than 180 the new left offset lies in [width - 180, 0] |
| `TheQuestion.Question.constructor` | src/components/valentine/TheQuestion.tsx:10-11 | the question mounts with 0 attempts at position (0, 0) |
| `TheQuestion.Question.CurrentLabel` | src/components/valentine/TheQuestion.tsx:122 | the label is `noMessages[noAttempts]`; it is "Just say yes!" iff the counter is at 9 |
| `TheQuestion.Question.RunAwayFromCursor` | src/components/valentine/TheQuestion.tsx:27-51 | with no container nothing changes; otherwise the position is recomputed and the counter advances by `NextAttempts` |
| `TheQuestion.TwelveEvasions` | src/components/valentine/TheQuestion.tsx:27-51 | twelve evasions from a fresh screen leave the counter at 9, the label "Just say yes!" and the aside shown |
| `FloatingHearts.AmbientHeart` | src/components/valentine/FloatingHearts.tsx:25-30 | with draws in [0,1) an ambient heart has x, y in [0,100), size in [15,35), delay in [0,5) and duration in [4,7) |
| `FloatingHearts.InitialHearts` | src/components/valentine/FloatingHearts.tsx:24-32 | the pool has exactly `count` hearts, the i-th with id i, so the ids are 0..count-1; with draws in [0,1) the sizes, delays and durations are in range |
| `FloatingHearts.Burst` | src/components/valentine/FloatingHearts.tsx:39-46 | a click makes 5 hearts with ids t..t+4, the click position, delays i * 0.1, duration 2, and size in [10,25) for draws in [0,1) |
| `FloatingHearts.WithoutIds` | src/components/valentine/FloatingHearts.tsx:52 | the removal keeps exactly the hearts whose id is not in the batch, and no survivor carries a batch id |
| `FloatingHearts.WithoutIdsKeepsOrder` | src/components/valentine/FloatingHearts.tsx:52 | the survivors keep their original relative order |
| `FloatingHearts.WithoutAbsentIds` | src/components/valentine/FloatingHearts.tsx:52 | a removal whose ids match no heart changes nothing |
| `FloatingHearts.WithoutIdsAppend` | src/components/valentine/FloatingHearts.tsx:52 | the removal works by id, not position: it acts on each part of a concatenation separately |
| `FloatingHearts.WithoutIdsIdempotent` | src/components/valentine/FloatingHearts.tsx:52 | applying the same removal twice gives the same list as once |
| `FloatingHearts.WithoutAllIds` | src/components/valentine/FloatingHearts.tsx:52 | a batch's own removal leaves none of its hearts |
| `FloatingHearts.WithoutIdsDropsMatch` | src/components/valentine/FloatingHearts.tsx:52 | a removal that matches some heart shortens the list |
| `FloatingHearts.BurstIdsDisjoint` | src/components/valentine/FloatingHearts.tsx:40 | two bursts share no id iff their timestamps are at least 5 apart |
| `FloatingHearts.ExpiryKeepsDisjointBatch` | src/components/valentine/FloatingHearts.tsx:48-52 | expiring a batch leaves a later batch with disjoint ids intact, after the survivors of earlier hearts |
| `FloatingHearts.ExpiryHitsCloseBurst` | src/components/valentine/FloatingHearts.tsx:40-52 | for bursts less than 5 apart, the first expiry removes at least one heart of the second early |
| `FloatingHearts.WithoutIdsCompose` | src/components/valentine/FloatingHearts.tsx:52 | two removals in a row equal one removal of both batches' ids |
| `FloatingHearts.FireAllIsOneFilter` | src/components/valentine/FloatingHearts.tsx:48-53 | firing a queue of scheduled removals in order filters once by the ids of all their batches |
| `FloatingHearts.FireAllLeavesNothing` | src/components/valentine/FloatingHearts.tsx:48-53 | no leak: when every click heart belongs to a scheduled removal, firing them all leaves no click heart |
| `FloatingHearts.Hearts.constructor` | src/components/valentine/FloatingHearts.tsx:19-33 | mounting builds the ambient pool and starts with no click hearts and no pending removal |
| `FloatingHearts.Hearts.HandleClick` | src/components/valentine/FloatingHearts.tsx:36-54 | a disabled click changes nothing and schedules nothing; an enabled one appends the burst after the old list, which stays an unchanged prefix, and queues the burst's removal; every click heart stays covered by a pending removal |
| `FloatingHearts.Hearts.RemoveBatch` | src/components/valentine/FloatingHearts.tsx:51-53 | the oldest pending removal fires: the click hearts become `WithoutIds` of the old list and its batch's ids, it leaves the queue, and with the queue empty no click heart is left |

## Left out

- `src/components/valentine/Celebration.tsx` is not part of this model. Its confetti calls, its animation-frame loop bounded by the wall clock, its periodic interval and its audio play/pause are foreign library calls, timing and audio I/O. Only its replay callback is modelled, as `Index.App.Replay`.
- `src/components/valentine/WelcomeScreen.tsx` is presentation with no state. Its one callback is modelled as `Index.App.Continue`.
- Animation props, CSS classes, SVG paths, the random heart colours and the `Math.sin` drift are cosmetic and not modelled.
- JavaScript doubles are modelled as exact reals, so rounding in the position and particle arithmetic is not captured.
- The 50 ms and 3000 ms delays are not modelled. Each timeout firing is an explicit call: `Tick`/`LetterTick` and `RemoveBatch`/`HeartsExpire`. All removal timeouts share the 3000 ms delay, so the model fires them in the order they were scheduled. Clearing the letter's timeout on unmount shows up only as ticks to an unmounted letter doing nothing.
- `Math.random`, `Date.now`, `getBoundingClientRect`, `window.innerWidth`/`innerHeight` and the click coordinates are parameters. The click position arrives already converted to viewport percent.
- Registering and removing the window click listener is not modelled. A click while the layer is disabled is a no-op, which is what an unregistered listener amounts to.
- The content configuration is not modelled beyond its message and its photo count of 4. Photo urls, captions and names are not modelled.
- Rendering `photos[currentIndex]` with an empty photo list would fail. The model only keeps the index at 0 in that case.
- The NO button falls back to `60%`/`70%` when a coordinate is exactly 0. That is rendering and is not modelled.
- React renders between a state change and the effect it triggers. The model treats the change and its effect as one step, so `isTypingComplete` always equals "the whole message is shown".
- JavaScript's `message.length` and `message.slice` count UTF-16 code units, while a Dafny string counts characters. For a message with characters outside the Basic Multilingual Plane (emoji, say) the code needs two timeouts per such character and shows half a surrogate pair in between, so `LoveLetter.FullAfterExactlyLength` counts timeouts in characters, not code units. The configured message is ASCII, where the two counts agree.
- Index.App.LetterTick: states the new prefix length and the monotone flags, not the prefix itself. That follows from `LoveLetter.Letter.Valid`.
