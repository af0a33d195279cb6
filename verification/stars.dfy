/**
 * `tr::Star` as an object whose fields its methods update in place, and the
 * fixed pool of stars that the program creates once and advances one frame
 * at a time. The random draws of the constructor and of `reborn` are passed
 * in; the screen size is passed in as plain numbers.
 */
module Stars {
  import opened Lifecycle
  import opened Screen

  /** Number of stars in the pool. */
  const MAX_STARS: nat := 25

  class Star {
    var x: int
    var y: int
    var clr: StarColor
    var state: Life
    var lifetime: nat
    var gestage: nat
    var isAlive: bool

    /** The star's fields as a value. */
    function Snapshot(): StarValue
      reads this
    {
      StarValue(x, y, clr, state, lifetime, gestage, isAlive)
    }

    /** `Star()`: a new star at a random position, colour and gestation length, an unborn embryo. */
    constructor (d: Draw, maxy: int, maxx: int)
      requires DrawInRange(d, maxy, maxx)
      ensures Snapshot() == Fresh(d)
      ensures Unborn(Snapshot()) && Valid(Snapshot())
      ensures 0 <= x <= maxx && 0 <= y <= maxy
    {
      x := d.x;
      y := d.y;
      clr := ColorFromIndex(d.clr);
      gestage := d.gestage;
      state := Embrion;
      lifetime := 0;
      isAlive := true;
    }

    /** `reborn`: every field reset to the start of a new life from fresh draws. */
    method Reborn(d: Draw, maxy: int, maxx: int)
      requires DrawInRange(d, maxy, maxx)
      modifies this
      ensures Snapshot() == Fresh(d)
      ensures Unborn(Snapshot()) && Valid(Snapshot()) && !IsDead()
      ensures 0 <= x <= maxx && 0 <= y <= maxy
    {
      x := d.x;
      y := d.y;
      clr := ColorFromIndex(d.clr);
      state := Embrion;
      isAlive := true;
      lifetime := 0;
      gestage := d.gestage;
    }

    /** `live`: advance the star by one tick. */
    method Live()
      modifies this
      ensures Snapshot() == LiveStep(old(Snapshot()))
      ensures old(Valid(Snapshot())) ==> Valid(Snapshot())
      ensures !old(isAlive) ==> unchanged(this)
    {
      if !isAlive {
        return;
      }
      if gestage != 0 {
        if lifetime < gestage {
          lifetime := lifetime + 1;
        } else if lifetime == gestage {
          lifetime := 0;
          gestage := 0;
          state := Born;
        }
      } else {
        if (lifetime + 1) % MAX_STAR_TICKS != 0 {
          lifetime := lifetime + 1;
        } else {
          lifetime := (lifetime + 1) % MAX_STAR_TICKS;
          if Ordinal(state) + 1 > Ordinal(Oldf) {
            isAlive := false;
            return;
          }
          state := FromOrdinal(Ordinal(state) + 1);
        }
      }
    }

    /** `is_dead`: a star is dead once it has run past the end of Oldf. */
    predicate IsDead()
      reads this
      ensures IsDead() <==> !Snapshot().isAlive
      ensures Valid(Snapshot()) && IsDead() ==> state == Oldf && lifetime == 0 && gestage == 0
    {
      !isAlive
    }

    /** `render`: the writes this star issues, clipped to a screen of `maxy` rows and `maxx` columns. */
    method Render(maxy: int, maxx: int) returns (writes: seq<Write>)
      ensures writes == Screen.Render(Snapshot(), maxy, maxx)
      ensures state == Embrion ==> writes == []
      ensures forall wr :: wr in writes ==> 0 <= wr.row < maxy && 0 <= wr.col <= maxx + 1
    {
      writes := Paint(Requests(state, y, x), clr, maxy, maxx);
    }
  }

  /** The stars of a pool are distinct objects, as the elements of a `std::array` are. */
  ghost predicate Distinct(pool: array<Star>)
    reads pool
  {
    forall i, j :: 0 <= i < pool.Length && 0 <= j < pool.Length && i != j ==> pool[i] != pool[j]
  }

  /** The stars of the pool as values, in pool order. */
  ghost function Snapshots(pool: array<Star>): (ss: seq<StarValue>)
    reads pool, set i | 0 <= i < pool.Length :: pool[i]
    ensures |ss| == pool.Length
    ensures forall i :: 0 <= i < pool.Length ==> ss[i] == pool[i].Snapshot()
  {
    seq(pool.Length, i reads pool, set i | 0 <= i < pool.Length :: pool[i]
                       requires 0 <= i < pool.Length => pool[i].Snapshot())
  }

  /** The pool the program creates at start-up: MAX_STARS new stars, each an unborn embryo. */
  method NewPool(draws: seq<Draw>, maxy: int, maxx: int) returns (pool: array<Star>)
    requires |draws| == MAX_STARS
    requires forall i :: 0 <= i < |draws| ==> DrawInRange(draws[i], maxy, maxx)
    ensures fresh(pool) && pool.Length == |draws| && Distinct(pool)
    ensures forall i :: 0 <= i < pool.Length ==>
              fresh(pool[i]) && pool[i].Snapshot() == Fresh(draws[i])
  {
    var stars: seq<Star> := [];
    while |stars| < MAX_STARS
      invariant |stars| <= MAX_STARS
      invariant forall i :: 0 <= i < |stars| ==>
                  fresh(stars[i]) && stars[i].Snapshot() == Fresh(draws[i])
      invariant forall i, j :: 0 <= i < j < |stars| ==> stars[i] != stars[j]
    {
      var star := new Star(draws[|stars|], maxy, maxx);
      stars := stars + [star];
    }
    pool := new Star[MAX_STARS](i requires 0 <= i < MAX_STARS => stars[i]);
  }

  /**
   * The body of the main loop for one star: render it, advance it by `live`,
   * and reborn it from the draws if that killed it.
   */
  method Tick(star: Star, d: Draw, maxy: int, maxx: int) returns (writes: seq<Write>)
    requires DrawInRange(d, maxy, maxx)
    modifies star
    ensures writes == Screen.Render(old(star.Snapshot()), maxy, maxx)
    ensures star.Snapshot() == FrameStep(old(star.Snapshot()), d)
    ensures !star.IsDead()
  {
    writes := star.Render(maxy, maxx);
    star.Live();
    if star.IsDead() {
      star.Reborn(d, maxy, maxx);
    }
  }

  /**
   * One frame of the main loop over the pool: each star, in order, is rendered,
   * advanced by `live`, and reborn from its draws if that killed it. Afterwards
   * no star of the pool is dead, and the frame's writes are every star's
   * render before it moved.
   */
  method Frame(pool: array<Star>, draws: seq<Draw>, maxy: int, maxx: int) returns (writes: seq<Write>)
    requires Distinct(pool)
    requires |draws| == pool.Length
    requires forall i :: 0 <= i < |draws| ==> DrawInRange(draws[i], maxy, maxx)
    modifies set i | 0 <= i < pool.Length :: pool[i]
    ensures forall i :: 0 <= i < pool.Length ==>
              pool[i].Snapshot() == FrameStep(old(pool[i].Snapshot()), draws[i])
    ensures forall i :: 0 <= i < pool.Length ==> !pool[i].IsDead()
    ensures writes == FrameWrites(old(Snapshots(pool)), maxy, maxx)
  {
    ghost var before := Snapshots(pool);
    writes := [];
    var i := 0;
    while i < pool.Length
      invariant 0 <= i <= pool.Length
      invariant forall j :: 0 <= j < i ==> pool[j].Snapshot() == FrameStep(before[j], draws[j])
      invariant forall j :: i <= j < pool.Length ==> pool[j].Snapshot() == before[j]
      invariant writes == FrameWrites(before[..i], maxy, maxx)
    {
      assert DrawInRange(draws[i], maxy, maxx);
      var w := Tick(pool[i], draws[i], maxy, maxx);
      FrameWritesExtend(before, i, maxy, maxx);
      writes := writes + w;
      i := i + 1;
    }
    assert before[..pool.Length] == before;
  }
}
