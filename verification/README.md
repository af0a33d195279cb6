# tr-stars: the star life cycle, in Dafny

tr-stars draws an animated starfield in a terminal. A fixed pool of 25 stars
is advanced once per frame. Each star is a `tr::Star` with a position, a
colour, a life state, an age counter (`lifetime`), a gestation length
(`gestage`) and an `is_alive` flag. Every frame the program renders each star,
calls `live` on it to advance it by one tick, and calls `reborn` on it if it
died.

A star first spends `gestage` ticks as an `embrion`, with `gestage` drawn from
[20, 100]. It is then `born` and moves through `teen`, `adult`, `old` and
`oldf`, spending `MAX_STAR_TICKS` = 20 ticks in each. When it would move past
`oldf` it dies instead.

This project models that core:

- `lifecycle.dfy` (module `Lifecycle`) holds the star's fields as a value
  (`StarValue`) and the random draws of a (re)birth (`Draw`). It defines the
  fresh star that the constructor and `reborn` produce (`Fresh`), the one-tick
  transition of `live` (`LiveStep`), the invariant that every reachable star
  keeps (`Valid`), and what one pool frame does to one star (`FrameStep`).
- `timeline.dfy` (module `Timeline`) repeats `live` (`Run`) and gives a closed
  form of a whole life (`Schedule`), proved to match. From it follow the exact
  calls on which each state starts and ends and the call on which the star
  dies.
- `screen.dfy` (module `Screen`) covers drawing. `Requests` is the per-state
  cell table of `render`. `MvSquare` is the clipping rule of `mvsquare`, as
  the list of `(row, col, colour pair)` writes it issues. `Render` is what one
  `render` writes and `FrameWrites` is what one frame writes.
- `stars.dfy` (module `Stars`) holds `Star` as a class whose methods update
  its fields in place: the constructor, `Reborn`, `Live`, `IsDead` and
  `Render`. Each method is proved against the functions above. It also holds
  the pool as an array of distinct stars: `NewPool` creates it and `Frame` is
  one pass of the main loop, with `Tick` as the loop body for one star.

A star with gestation length g is an embryo through call g. It is `born` on
call g+1, `teen` on g+21, `adult` on g+41, `old` on g+61 and `oldf` on g+81,
and it is dead on call g+101. For g = 20 that puts `oldf` at call 101 and death
at call 121. These numbers come from `live` (`tr-stars.cpp:83-111`), and
`Timeline.ShortestGestationTimeline` proves them.

When 0 <= y < `getmaxy` and -1 <= x <= `getmaxx`, `mvsquare` writes column
x+1, and also column x when x >= 0. Its inner test `x <= getmaxx` is
therefore always true. Because `getmaxx` is the column count,
a write can land on column `getmaxx` or `getmaxx + 1`, past the last screen
column. The terminal library drops those writes, and that library is not part
of this model. The model keeps the writes exactly as the code issues them.

## Model

| member | source | states |
|---|---|---|
| `Lifecycle.FromOrdinal` | tr-stars.cpp:43-51 | The integer-to-`star_life` cast used by `live` is the inverse of the enumerator value on 0..5. |
| `Lifecycle.ColorFromIndex` | tr-stars.cpp:37-42 | The cast of the colour draw in [0, 2] to `star_color` gives the enumerator with that value. |
| `Lifecycle.Fresh` | tr-stars.cpp:64-81 | A (re)born star is an alive embryo aged 0. Its position, colour and gestation length are the draws, the gestation length is in [20, 100], and it satisfies the invariant. |
| `Lifecycle.LiveStep` | tr-stars.cpp:83-111 | One `live` call never changes position or colour, leaves a dead star exactly as it is, and never brings a dead star back. |
| `Lifecycle.LiveStepKeepsValid` | tr-stars.cpp:87-109 | `live` keeps the invariant. During gestation the star stays an alive embryo with `lifetime <= gestage`. In growth, `lifetime` stays in [0, 20). A dead star is in `oldf` with `lifetime` 0. Both counters stay <= 100, so the 8-bit fields never wrap. |
| `Lifecycle.LiveStepStateChange` | tr-stars.cpp:87-109 | On a valid star the state never decreases and moves at most one ordinal per call. It changes only when gestation ends (to `born`) or when the growth counter wraps below `oldf`. |
| `Lifecycle.GestationStep` | tr-stars.cpp:87-95 | During gestation, `lifetime < gestage` means the call only increments `lifetime`. `lifetime == gestage` means the call sets `lifetime = 0`, `gestage = 0` and `state = born`. |
| `Lifecycle.GrowthStep` | tr-stars.cpp:98-108 | After gestation, a call only increments `lifetime` unless `lifetime + 1` is a multiple of 20. On that call `lifetime` was 19, becomes 0, and a star below `oldf` stays alive and moves exactly one state on. |
| `Lifecycle.DeathStep` | tr-stars.cpp:98-107 | An alive star dies on a call exactly when it is in growth, its counter wraps, and it is in `oldf`. It then keeps `state == oldf`, `lifetime == 0` and the same `gestage`. |
| `Lifecycle.FrameStep` | tr-stars.cpp:173-178 | After live-then-reborn-if-dead the star is alive. A valid star stays valid. A star that this frame's `live` kills is replaced by the fresh star of the draws, and any other star is the star after `live`. |
| `Lifecycle.FrameStepRebirth` | tr-stars.cpp:176-177 | An alive valid star becomes the fresh star of the draws exactly when this frame's `live` kills it. Otherwise it is the star after `live`. |
| `Timeline.Run` | tr-stars.cpp:83-111 | Across any number of `live` calls, position and colour never change and a dead star stays as it is. |
| `Timeline.Schedule` | tr-stars.cpp:83-111 | Every state of the closed-form life satisfies the invariant and keeps the initial position and colour. |
| `Timeline.RunFollowsSchedule` | tr-stars.cpp:83-111 | After n calls, an unborn star with gestation length g is exactly: an embryo aged n (n <= g); or in growth state 1 + j/20 aged j%20 (n = g+1+j, j < 100); or dead in `oldf` aged 0 (n > g+100). |
| `Timeline.EmbrionDuration` | tr-stars.cpp:87-95 | A fresh star is an embryo after n calls if and only if n <= `gestage`, so it stays `embrion` for exactly `gestage` calls, and its age then is n <= `gestage`. |
| `Timeline.GrowthStateDuration` | tr-stars.cpp:98-108 | The alive star is in growth state k (born = 1 … oldf = 5) if and only if g+20(k-1)+1 <= n <= g+20k. Each state from `born` on therefore lasts exactly 20 calls. |
| `Timeline.DeathCall` | tr-stars.cpp:102-106 | A fresh star is alive after n calls if and only if n <= g+100. It is dead, in `oldf` with `lifetime` 0, from call g+101 on. |
| `Timeline.RunKeepsValid` | tr-stars.cpp:83-111 | Any number of `live` calls keeps the invariant. |
| `Timeline.RunStateMonotone` | tr-stars.cpp:87-109 | Over any number of calls the state of a valid star never goes back. |
| `Timeline.ShortestGestationTimeline` | tr-stars.cpp:83-111 | With gestage at its minimum `MIN_GESTAGE` = 20 (line 11), `live` gives: `embrion` at call 20, `born` at 21, `teen` at 41, `adult` at 61, `old` at 81, `oldf` at 101, alive at 120 and dead at 121. |
| `Screen.Pair` | tr-stars.cpp:18 | A star draws with colour pair `clr + 1`, one of 1..3. |
| `Screen.MvSquare` | tr-stars.cpp:14-25 | `mvsquare` issues at most two writes, all on row y and all in the star's colour pair. |
| `Screen.MvSquareWrites` | tr-stars.cpp:14-25 | A write is issued exactly when 0 <= y < maxy and -1 <= x <= maxx. It goes to column x only if x >= 0, and always to column x+1, so every written column is in [0, maxx+1]. |
| `Screen.Requests` | tr-stars.cpp:118-145 | `render` requests no cell exactly in state `embrion`, the one state no switch case matches. |
| `Screen.RequestCount` | tr-stars.cpp:118-145 | `render` requests 0 cells for `embrion`, 1 for `born`/`oldf`, 5 for `teen`/`old` and 8 for `adult`. |
| `Screen.RequestsTranslate` | tr-stars.cpp:118-145 | The requested cells are the glyph at (0, 0) moved to the star's (y, x). |
| `Screen.RequestsRing` | tr-stars.cpp:118-145 | Every requested cell is an even column offset in [-4, 4] from the star. The diamond distance 2·abs(dy) + abs(dx) is 0 for `born`/`oldf`, 0 or 2 for `teen`/`old`, and exactly 4 for `adult`. |
| `Screen.RequestsDistinct` | tr-stars.cpp:118-145 | No cell is requested twice in one `render`. |
| `Screen.RequestsSymmetricRows` | tr-stars.cpp:118-145 | The glyph is symmetric when its rows are mirrored through the star's row. |
| `Screen.RequestsSymmetricColumns` | tr-stars.cpp:118-145 | The glyph is symmetric when its columns are mirrored through the star's column. |
| `Screen.RequestsCentre` | tr-stars.cpp:118-145 | The star's own cell is requested in every state except `embrion` and `adult`. |
| `Screen.RequestNear` | tr-stars.cpp:128-142 | Every requested cell is at most two rows and four columns from the star. |
| `Screen.Paint` | tr-stars.cpp:124-142 | Drawing a list of cells issues at most two writes per cell, all in the star's colour pair. |
| `Screen.PaintWrites` | tr-stars.cpp:124-142 | A write belongs to a drawing if and only if the `mvsquare` of one of its cells issues it. |
| `Screen.GlyphWrite` | tr-stars.cpp:118-145 | Each write of a star's glyph is on an on-screen row, at a column in [0, maxx+1], and in the star's colour pair. It lies within 2 rows and -4..+5 columns of the star, and it can exist only when -5 <= x <= maxx+4. |
| `Screen.RenderBounds` | tr-stars.cpp:118-145 | The bounds of `GlyphWrite` hold for every write of one `render`. |
| `Screen.Render` | tr-stars.cpp:118-145 | Everything one `render` writes is on screen by row, at a column in [0, maxx+1] (up to two columns past the last screen column), in the star's colour pair and near the star. An embryo writes nothing. |
| `Screen.RenderOffScreen` | tr-stars.cpp:118-145 | A star more than two rows above or below the screen, more than five columns left of it, or more than four columns past `maxx` issues no write at all. |
| `Screen.RenderOffVisible` | tr-stars.cpp:118-145 | A star none of whose requested squares (columns c and c+1) touches the visible rows [0, maxy) and columns [0, maxx) draws nothing visible. Every write it still issues is on column maxx or maxx+1, past the screen's last column. |
| `Screen.FrameWrites` | tr-stars.cpp:173-175 | Every write of one frame is in the clipping bounds and uses the colour pair of some star of the pool. |
| `Stars.Star.constructor` | tr-stars.cpp:64-70 | A new star has the fields of `Fresh` for its draws. It is unborn and valid, with x in [0, maxx] and y in [0, maxy]. |
| `Stars.Star.Reborn` | tr-stars.cpp:72-81 | Every field is reset to `Fresh` of the new draws. The star is unborn, valid and not dead, with its position in range. |
| `Stars.Star.Live` | tr-stars.cpp:83-111 | The new fields are `LiveStep` of the old ones. The invariant is kept, and a dead star is left unchanged. |
| `Stars.Star.IsDead` | tr-stars.cpp:113-116 | True exactly when the star is not alive. A valid dead star is in `oldf` with `lifetime` and `gestage` 0. |
| `Stars.Star.Render` | tr-stars.cpp:118-145 | Returns the writes of `Screen.Render` for the star's current fields. These are none for an embryo, and all are within the clipping bounds. |
| `Stars.Tick` | tr-stars.cpp:173-178 | Render, `live`, then `reborn` if dead. The writes are the render of the star before it moved, the new fields are `FrameStep` of the old ones, and the star is not dead afterwards. |
| `Stars.NewPool` | tr-stars.cpp:163 | Creates `MAX_STARS` (25) distinct new stars, each `Fresh` of its draws. |
| `Stars.Frame` | tr-stars.cpp:173-178 | Every star of the pool ends as `FrameStep` of its old value and its draws, and no star is dead after the frame. The writes are the renders of all stars in pool order, taken before they moved. |

## Left out

- Terminal setup and teardown is left out: `initscr`, the input modes, cursor hiding, colour-pair registration, `clear`, `getch` key polling and `endwin` (tr-stars.cpp:151-161, 169-172, 183). These are I/O through a terminal library that is not part of this model.
- The effect of `attron`/`mvaddch`/`attroff` on the terminal is left out. Only the list of writes that `mvsquare` issues is modelled, including writes that the terminal then drops.
- `randint` and its static `std::mt19937` (tr-stars.cpp:27-31) are replaced by draws the caller supplies. The colour and gestation-length draws have range types ([0, 2] and [20, 100]). The position draws are bounded by `requires` ([0, maxx] and [0, maxy]). `Frame` takes one set of draws per star and uses it only if that star is reborn. The program draws lazily, only for stars that died.
- The screen size (`getmaxx`, `getmaxy`) is passed in as plain integers. `Frame` uses one size for the whole frame and does not model a resize in the middle of a frame.
- The frame pacing (`sleep_for`, `MS_PER_TICK`) and the endless `while (1)` loop ended by a key press (tr-stars.cpp:167, 180) are left out. One iteration of the loop is `Stars.Frame`, and any number of ticks of one star is `Timeline.Run`.
- The 8-bit width of `lifetime` and `gestage` is left out: both are `nat`. `Lifecycle.LiveStepKeepsValid` shows that on every reachable star both stay <= 100, so the `uint8_t` fields never wrap.
- The pool is an array of distinct `Star` objects, standing in for the `std::array<Star, 25>` of values. Two slots that share one object are excluded by `Stars.Distinct`.
