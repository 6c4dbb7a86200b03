# Will you be mine: a verified model of the Valentine page

The page asks "Will you be my Valentine?" under a "Yes" button that runs away from
the pointer. Each time the pointer enters the button, the button jumps to a random
place on the screen and the escape counter goes up. From the second jump on, each jump
also leaves a batch of three "trail" hearts at the button's old place, and a timer
removes that batch 800 ms later. After `MAX_ESCAPES` (5) escapes the button stops
running and can be clicked. A click accepts, which is final. It sets off a burst of
60 hearts around the screen centre, reveals a message 600 ms later and clears the
burst after 3000 ms. Fifteen background hearts, generated once at mount, float
across the page all the time.

The model has four modules:

- `Hearts` (hearts.dfy): the constants, the three heart records and their pure
  generators (the `Array.from` callbacks of the page). Each `Math.random()` result
  is a *draw*, a real in [0, 1) passed in by the caller. This makes the shape of
  each batch exact: its count, its ids and its ranges.
- `Placement` (placement.dfy): the new button position, `padding + r * max`, kept
  exactly as the page writes it.
- `Trail` (trail.dfy): removal of one trail batch by id membership, with its
  algebra: what it keeps, in which order, idempotence, commutation, and what
  happens when clock-based ids collide.
- `Valentine` (valentine.dfy): class `ValentinePage`. Its fields are the
  component's state hooks (`escapeCount`, `accepted`, `burstHearts`,
  `showMessage`, `buttonPos`, `trailHearts`, `floatingHearts`) plus the browser's
  pending one-shot timers. Its methods are the two event handlers and the three
  timer callbacks. `CanClick()` is the page's `canClick` (`escapeCount >= 5`,
  src/pages/Index.tsx:40). `ButtonRendered()` is the render condition
  `!accepted` that both button elements share. `Valid()` is the invariant every
  method keeps:
  - the count never passes 5;
  - the button has left the page flow exactly when the count is positive;
  - acceptance needs the gate open;
  - the message, the burst and their timers exist only after acceptance;
  - a non-empty burst is a well-formed 60-heart burst that a pending timer will clear;
  - every trail heart carries an id of some pending cleanup.

  `Scenario` walks through the whole interaction: five escapes, a no-op sixth
  hover, a click and both timers.

## Model

| member | source | states |
|---|---|---|
| `Hearts.EmojiIndex` | src/pages/Index.tsx:58 | The glyph index `floor(r * 8)` is below 8 and is the integer part of `r * 8`. |
| `Hearts.FloatingHeartAt` | src/pages/Index.tsx:52-59 | The `i`-th background heart has id `i`, `left` in [0, 100), size in [16, 40), duration in [8, 20), delay in [0, 10) and a valid glyph index. |
| `Hearts.FloatingHearts` | src/pages/Index.tsx:51-60 | The mount-time set has exactly 15 hearts, numbered 0..14, each in the ranges above. |
| `Hearts.TrailHeartAt` | src/pages/Index.tsx:75-80 | A trail heart has the given id and lies within [-20, 20) on each axis of the old button centre `(x + 100, y + 35)`. |
| `Hearts.TrailBatch` | src/pages/Index.tsx:74-80 | A trail batch has exactly 3 hearts. Heart `i` has id `clock[i] + i`, where `clock` holds the three clock readings the page takes, one per heart. Each heart is near the old button centre. |
| `Hearts.BurstHeartAt` | src/pages/Index.tsx:96-107 | The `i`-th burst heart has id `i`, an angle within [-0.25, 0.25) of `2πi/60`, a distance in [150, 550), a size in [16, 48), a rotation in [0, 360) and a valid glyph index. |
| `Hearts.BurstHearts` | src/pages/Index.tsx:96-107 | An accepting click creates exactly 60 burst hearts, numbered 0..59, each in the ranges above. |
| `Placement.Place` | src/pages/Index.tsx:65-71 | With room `extent - size - 20` at least 0, the coordinate lies in [20, extent - size]. It is strictly below `extent - size` when the room is positive. With negative room it lies in (extent - size, 20]. |
| `Placement.NextPosition` | src/pages/Index.tsx:65-71 | For a viewport wider than 220 and taller than 90, the new corner satisfies `20 <= x < innerWidth - 200` and `20 <= y < innerHeight - 70`. |
| `Placement.FarMarginNotKept` | src/pages/Index.tsx:68-71 | For every viewport, some draw puts the button's far edge inside the last 20 px or past them: no right or bottom margin is kept. |
| `Placement.NarrowViewportOverflows` | src/pages/Index.tsx:68-71 | When the viewport is narrower than button plus padding, every non-zero draw puts the button inside the near padding. Its first clause, that the button always sticks out of the far edge, is `Place`'s negative-room bound restated. On a screen of at least 1024 px the x-room is at least 804, so this case can arise only on the y axis, with `innerHeight < 90`. |
| `Trail.RemoveBatch` | src/pages/Index.tsx:83 | A heart survives the cleanup exactly when it was in the list and its id is not among the batch's ids. The list never grows. |
| `Trail.RemoveBatchAppend` | src/pages/Index.tsx:83 | Cleanup distributes over concatenation, since it decides heart by heart. |
| `Trail.RemoveBatchUntouched` | src/pages/Index.tsx:83 | A list with no heart of the batch comes back unchanged. |
| `Trail.RemoveBatchKeepsOrder` | src/pages/Index.tsx:83 | The survivors are a subsequence of the list: original relative order is kept. |
| `Trail.RemoveBatchIdempotent` | src/pages/Index.tsx:82-84 | Running a batch's cleanup twice gives the same list as running it once. |
| `Trail.RemoveBatchCommutes` | src/pages/Index.tsx:82-84 | Two cleanups give the same list in either firing order. |
| `Trail.SparesNewerBatch` | src/pages/Index.tsx:75-84 | If an older batch's ids are disjoint from a newer batch's, its cleanup leaves the newer batch whole at the end of the list. |
| `Trail.BatchIdsCollide` | src/pages/Index.tsx:75-76 | Suppose each batch's three readings fall in one millisecond, `t1` and `t2`. Then the batches have disjoint ids iff those milliseconds are at least 3 apart. |
| `Trail.BatchIdsApart` | src/pages/Index.tsx:75-76 | With a clock that never runs backwards, take a batch whose first reading is at least 3 ms after an older batch's last reading. It shares no id with that older batch. |
| `Trail.TickInsideBatchCollides` | src/pages/Index.tsx:75-76 | If the clock ticks inside a batch, two batches whose first readings are 3 ms apart can still collide. Readings `t, t, t + 1` and `t + 3` both produce the id `t + 3`. |
| `Trail.RemoveBatchPrefix` | src/pages/Index.tsx:83 | If the first `j` hearts carry batch ids and the rest do not, cleanup leaves exactly the rest. |
| `Trail.CleanupOfCollidingBatches` | src/pages/Index.tsx:75-84 | Suppose each batch is read within one millisecond, and the newer batch's millisecond is `k < 3` later than the older's. Then the older cleanup removes all of the older batch and all but the last `k` hearts of the newer one. |
| `Valentine.ValentinePage.CanClick` | src/pages/Index.tsx:40 | True exactly when `escapeCount >= 5`. Under the page invariant the gate opens exactly when the count equals 5. |
| `Valentine.ValentinePage.ButtonRendered` | src/pages/Index.tsx:203-216 | True exactly when the page is not accepted. Under the page invariant the button is always on screen while the gate is closed. |
| `Valentine.ValentinePage.constructor` | src/pages/Index.tsx:30-60 | The page starts with count 0, not accepted, no message, no burst, no trail, the button in the page flow and no timers. Its 15 floating hearts come from `FloatingHearts`. |
| `Valentine.ValentinePage.YeeetButton` | src/pages/Index.tsx:62-89 | With the gate open, nothing changes. Below the threshold, the count rises by exactly 1 and the button moves to `NextPosition`. The first escape adds no trail. Each later one appends `TrailBatch` (numbered from the clock readings) around the old position and schedules its cleanup. Acceptance, burst and message are untouched. `Valid()` is kept, so the count never passes 5. |
| `Valentine.ValentinePage.HandleClick` | src/pages/Index.tsx:91-112 | With the gate closed, nothing changes. With it open, the page becomes accepted and the burst becomes `BurstHearts(draws)` (60 hearts, ids 0..59). One message timer and one burst timer are scheduled. Nothing else changes. |
| `Valentine.ValentinePage.MessageTimerFires` | src/pages/Index.tsx:110 | Only a pending message timer, which only an accepting click schedules, can fire. It sets `showMessage` and changes nothing else, so `showMessage` implies `accepted`. |
| `Valentine.ValentinePage.BurstTimerFires` | src/pages/Index.tsx:111 | A pending burst timer empties the burst and changes nothing else. |
| `Valentine.ValentinePage.TrailTimerFires` | src/pages/Index.tsx:82-84 | A pending trail cleanup sets the trail list to `RemoveBatch(old list, batch ids)` and retires that one timer. Nothing else changes. |

Acceptance is terminal. `accepted` is set only by `HandleClick`, and no method
resets it. Both handlers require `ButtonRendered()` (`!accepted`), because both
button elements exist only while the page is not accepted
(src/pages/Index.tsx:203, :216).

Behaviour of the code that the model keeps as written:

- The code keeps no right or bottom margin and does not clamp small viewports.
  For innerWidth > 220, x ∈ [20, innerWidth − 200). At innerWidth = 220 the room
  is 0 and x = 20. Below 220 the room is negative and x ∈ (innerWidth − 200, 20].
  The same holds for y, with 70 in place of 200 and 90 in place of 220. See
  `Place`, `NextPosition`, `FarMarginNotKept` and `NarrowViewportOverflows`.
- Trail ids are `Date.now() + i`, with one clock reading per heart, so batches made
  within a few milliseconds of each other can share ids. An older batch's cleanup
  then removes the newer batch's shared hearts early. See `BatchIdsCollide`,
  `BatchIdsApart`, `TickInsideBatchCollides` and `CleanupOfCollidingBatches`.
- The burst distance is drawn from [150, 550) in exact arithmetic. After
  floating-point rounding the upper end can be reached: a draw of 1 − 2^-53 gives
  550, and the same holds for the other half-open upper bounds of the generators.

## Left out

- Rendering: JSX, CSS classes, inline styles and animations (src/pages/Index.tsx:114-239). These are presentation only. The one part kept is the condition `!accepted` under which the button and its handlers exist.
- The resize listener and the `innerWidth >= 1024` desktop check (src/pages/Index.tsx:43-48, :115-123). This is browser I/O. The handlers are reachable only on the desktop branch. The model does not require `innerWidth >= 1024`: its handlers accept any viewport size, so they cover that branch and more.
- `Math.random()` and `Date.now()`. They become the draws (reals in [0, 1)) and the `clock` parameter, which holds the three readings of one batch.
- `Math.cos` and `Math.sin` for the burst offsets (src/pages/Index.tsx:101-102). Burst hearts keep the polar form (angle, distance) from which the page computes `tx`, `ty`.
- Floating point. All geometry is exact `real` arithmetic, and `Math.PI` is read as an exact real.
- Real-time scheduling of `setTimeout`. Pending timers are state, and a timer fires only after its handler scheduled it. The model does not enforce the firing order that the 600, 800 and 3000 ms delays impose, so it also admits orders the browser would not produce. A batch is gone once its cleanup timer has fired.
- React's closure capture (`useCallback` dependencies, src/pages/Index.tsx:89). Every handler call sees the latest state, as sequential events do.
- The emoji glyphs themselves. A heart keeps an index into the 8-glyph list.
- The `NAME` constant and the message text, which are presentation only.
