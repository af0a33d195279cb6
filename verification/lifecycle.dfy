/**
 * The life cycle of one star of the starfield, as values: the states a star
 * passes through, the fields of `tr::Star`, the reset done by the constructor
 * and by `reborn`, and the one-tick transition done by `live`.
 */
module Lifecycle {

  /** Ticks a star spends in each state from Born onwards. */
  const MAX_STAR_TICKS: nat := 20
  /** Bounds of the random gestation length. */
  const MIN_GESTAGE: nat := 20
  const MAX_GESTAGE: nat := 100

  /** The enumeration `star_life`, in declaration order. */
  datatype Life = Embrion | Born | Teen | Adult | Old | Oldf

  /** The enumeration `star_color`, in declaration order. */
  datatype StarColor = Cyan | Magenta | Yellow

  /** The integer value of a `star_life` enumerator (embrion = 0, ..., oldf = 5). */
  function Ordinal(l: Life): nat
  {
    match l
    case Embrion => 0
    case Born => 1
    case Teen => 2
    case Adult => 3
    case Old => 4
    case Oldf => 5
  }

  /** The cast of an integer back to `star_life`, defined on the enumerators' range. */
  function FromOrdinal(n: nat): (l: Life)
    requires n <= Ordinal(Oldf)
    ensures Ordinal(l) == n
  {
    if n == 0 then Embrion
    else if n == 1 then Born
    else if n == 2 then Teen
    else if n == 3 then Adult
    else if n == 4 then Old
    else Oldf
  }

  /** The integer value of a `star_color` enumerator (cyan = 0, magenta = 1, yellow = 2). */
  function ColorIndex(c: StarColor): nat
  {
    match c
    case Cyan => 0
    case Magenta => 1
    case Yellow => 2
  }

  /** The cast of a random draw in [0, 2] to `star_color`. */
  function ColorFromIndex(i: int): (c: StarColor)
    requires 0 <= i <= 2
    ensures ColorIndex(c) == i
  {
    if i == 0 then Cyan else if i == 1 then Magenta else Yellow
  }

  /** The fields of one `tr::Star`. `lifetime` and `gestage` are `uint8_t` in the source. */
  datatype StarValue = StarValue(
    x: int, y: int,
    clr: StarColor,
    state: Life,
    lifetime: nat,
    gestage: nat,
    isAlive: bool)

  /** A colour draw, `randint(0, 2)`. */
  type ColorDraw = i: int | 0 <= i <= 2

  /** A gestation-length draw, `randint(MIN_GESTAGE, MAX_GESTAGE)`. */
  type GestageDraw = g: int | MIN_GESTAGE <= g <= MAX_GESTAGE witness MIN_GESTAGE

  /**
   * The four random values a (re)birth consumes, in the order they are drawn.
   * The ranges of the colour and the gestation length are fixed and part of
   * their types; those of the position depend on the screen (`DrawInRange`).
   */
  datatype Draw = Draw(x: int, y: int, clr: ColorDraw, gestage: GestageDraw)

  /** The position ranges `randint(0, getmaxx)` and `randint(0, getmaxy)` guarantee. */
  predicate DrawInRange(d: Draw, maxy: int, maxx: int)
  {
    0 <= d.x <= maxx && 0 <= d.y <= maxy
  }

  /** The start of a life: an alive embryo that has not aged yet, with a gestation length in range. */
  predicate Unborn(s: StarValue)
  {
    s.state == Embrion && s.lifetime == 0 && s.isAlive &&
    MIN_GESTAGE <= s.gestage <= MAX_GESTAGE
  }

  /**
   * The invariant every reachable star keeps. While gestating (gestage != 0) a star
   * is an alive embryo whose age never passes its gestation length; once grown
   * (gestage == 0) its age stays below MAX_STAR_TICKS; a dead star died in Oldf
   * with its age just wrapped to 0.
   */
  predicate Valid(s: StarValue)
  {
    s.gestage <= MAX_GESTAGE &&
    (s.gestage != 0 ==> s.state == Embrion && s.lifetime <= s.gestage && s.isAlive) &&
    (s.gestage == 0 ==> s.state != Embrion && s.lifetime < MAX_STAR_TICKS) &&
    (!s.isAlive ==> s.state == Oldf && s.lifetime == 0)
  }

  /** The star the constructor and `reborn` produce from one set of draws. */
  function Fresh(d: Draw): (s: StarValue)
    ensures Unborn(s) && Valid(s)
    ensures s.x == d.x && s.y == d.y && ColorIndex(s.clr) == d.clr && s.gestage == d.gestage
  {
    StarValue(d.x, d.y, ColorFromIndex(d.clr), Embrion, 0, d.gestage, true)
  }

  /**
   * One call of `live`: nothing for a dead star; during gestation the age counts
   * up to the gestation length and then the star is born; afterwards the age
   * counts modulo MAX_STAR_TICKS and each wrap moves the state one ordinal on,
   * or kills the star when it is already in the last state.
   */
  function LiveStep(s: StarValue): (r: StarValue)
    ensures r.x == s.x && r.y == s.y && r.clr == s.clr
    ensures !s.isAlive ==> r == s
    ensures r.isAlive ==> s.isAlive
  {
    if !s.isAlive then s
    else if s.gestage != 0 then
      if s.lifetime < s.gestage then s.(lifetime := s.lifetime + 1)
      else if s.lifetime == s.gestage then s.(lifetime := 0, gestage := 0, state := Born)
      else s
    else if (s.lifetime + 1) % MAX_STAR_TICKS != 0 then s.(lifetime := s.lifetime + 1)
    else if Ordinal(s.state) + 1 > Ordinal(Oldf) then
      s.(lifetime := (s.lifetime + 1) % MAX_STAR_TICKS, isAlive := false)
    else
      s.(lifetime := (s.lifetime + 1) % MAX_STAR_TICKS, state := FromOrdinal(Ordinal(s.state) + 1))
  }

  /** `live` keeps the invariant; in particular both counters stay within 0..100, so `uint8_t` never wraps. */
  lemma LiveStepKeepsValid(s: StarValue)
    requires Valid(s)
    ensures Valid(LiveStep(s))
    ensures LiveStep(s).lifetime <= MAX_GESTAGE && LiveStep(s).gestage <= MAX_GESTAGE
  {
  }

  /**
   * The state never goes back and moves at most one ordinal per call; it changes only
   * when gestation ends (to Born) or when the growth counter wraps below Oldf.
   */
  lemma LiveStepStateChange(s: StarValue)
    requires Valid(s)
    ensures Ordinal(s.state) <= Ordinal(LiveStep(s).state) <= Ordinal(s.state) + 1
    ensures LiveStep(s).state != s.state ==>
              (s.gestage != 0 && s.lifetime == s.gestage && LiveStep(s).state == Born) ||
              (s.gestage == 0 && (s.lifetime + 1) % MAX_STAR_TICKS == 0 && s.state != Oldf)
  {
  }

  /** During gestation the age goes up by one per call until it reaches the gestation length. */
  lemma GestationStep(s: StarValue)
    requires Valid(s) && s.gestage != 0
    ensures s.lifetime < s.gestage ==>
              LiveStep(s) == s.(lifetime := s.lifetime + 1) && LiveStep(s).lifetime <= s.gestage
    ensures s.lifetime == s.gestage ==>
              LiveStep(s).lifetime == 0 && LiveStep(s).gestage == 0 && LiveStep(s).state == Born
  {
  }

  /**
   * After gestation the age goes up by one per call, except on a call where it
   * reaches MAX_STAR_TICKS: then it wraps to 0 and the state moves one ordinal on
   * (or, in Oldf, the star dies).
   */
  lemma GrowthStep(s: StarValue)
    requires Valid(s) && s.isAlive && s.gestage == 0
    ensures (s.lifetime + 1) % MAX_STAR_TICKS != 0 ==>
              LiveStep(s) == s.(lifetime := s.lifetime + 1)
    ensures (s.lifetime + 1) % MAX_STAR_TICKS == 0 ==>
              s.lifetime == MAX_STAR_TICKS - 1 && LiveStep(s).lifetime == 0 &&
              (s.state != Oldf ==> LiveStep(s).isAlive && Ordinal(LiveStep(s).state) == Ordinal(s.state) + 1)
  {
  }

  /**
   * An alive star dies exactly on a growth wrap while in Oldf; it then keeps state
   * Oldf, age 0 and its (zero) gestation length.
   */
  lemma DeathStep(s: StarValue)
    requires s.isAlive
    ensures !LiveStep(s).isAlive <==>
              s.gestage == 0 && (s.lifetime + 1) % MAX_STAR_TICKS == 0 && s.state == Oldf
    ensures !LiveStep(s).isAlive ==>
              LiveStep(s).state == Oldf && LiveStep(s).lifetime == 0 && LiveStep(s).gestage == s.gestage
  {
  }

  /**
   * What one star goes through in one frame of the pool loop after it has been
   * drawn: `live`, then `reborn` from the draws if `live` killed it.
   */
  function FrameStep(s: StarValue, d: Draw): (r: StarValue)
    ensures r.isAlive
    ensures Valid(s) ==> Valid(r)
    ensures !LiveStep(s).isAlive ==> r == Fresh(d)
    ensures LiveStep(s).isAlive ==> r == LiveStep(s)
  {
    var t := LiveStep(s);
    if !t.isAlive then Fresh(d) else t
  }

  /**
   * In a frame an alive star is reborn from the draws exactly when this frame's
   * `live` kills it; otherwise it is just the star after `live`.
   */
  lemma FrameStepRebirth(s: StarValue, d: Draw)
    requires Valid(s) && s.isAlive
    ensures FrameStep(s, d) == Fresh(d) <==> !LiveStep(s).isAlive
    ensures LiveStep(s).isAlive ==> FrameStep(s, d) == LiveStep(s)
  {
  }
}
