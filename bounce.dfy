/**
 * The per-frame dynamics of the bouncing-character overlay of the home page,
 * on values: one record per character, one frame at a time, and the state
 * after a whole sequence of frames.
 */
module Bounce {

  /** Edge length, in pixels, of each character's box. */
  const Size: real := 150.0

  /** The characters the overlay shows; the simulation keeps one record per character. */
  const Chars: seq<char> := ['2', '2', '1', 'B']

  /** One simulation record: top-left corner and velocity in pixels per frame. */
  datatype ActorState = ActorState(x: real, y: real, vx: real, vy: real)

  /** Position and velocity along one axis. */
  datatype Axis = Axis(pos: real, vel: real)

  /** The four uniform draws that initialise one record. */
  datatype Draws = Draws(r1: real, r2: real, r3: real, r4: real)

  /** What one animation frame sees: the window size and which character elements exist. */
  datatype Frame = Frame(w: real, h: real, present: seq<bool>)

  /** `Math.abs` on the model's reals. */
  function Abs(r: real): (a: real)
    ensures a >= 0.0 && (a == r || a == -r)
  {
    if r < 0.0 then -r else r
  }

  /** A draw of the random source lies in [0, 1). */
  predicate ValidDraws(d: Draws) {
    0.0 <= d.r1 < 1.0 && 0.0 <= d.r2 < 1.0 && 0.0 <= d.r3 < 1.0 && 0.0 <= d.r4 < 1.0
  }

  /** Whether the element of character `i` exists in frame `f`. */
  predicate PresentAt(f: Frame, i: int) {
    0 <= i < |f.present| && f.present[i]
  }

  /** The box of one record lies inside a `w` by `h` window. */
  predicate ActorInBounds(a: ActorState, w: real, h: real) {
    0.0 <= a.x <= w - Size && 0.0 <= a.y <= h - Size
  }

  /** Every record lies inside the window. */
  predicate InBounds(s: seq<ActorState>, w: real, h: real) {
    forall i :: 0 <= i < |s| ==> ActorInBounds(s[i], w, h)
  }

  // ---------------------------------------------------------------------------
  // Initialisation

  /** The record built for one character from its four draws. */
  function InitActor(w: real, h: real, d: Draws): ActorState {
    ActorState(d.r1 * (w - Size), d.r2 * (h - Size), (d.r3 - 0.5) * 3.0, (d.r4 - 0.5) * 3.0)
  }

  /** The records built for the characters, one set of draws each. */
  function InitStates(w: real, h: real, draws: seq<Draws>): seq<ActorState> {
    seq(|draws|, i requires 0 <= i < |draws| => InitActor(w, h, draws[i]))
  }

  /** A draw `r` in [0, 1) scales `c >= 0` into [0, c], strictly below `c` when `c > 0`. */
  lemma ScaledDraw(r: real, c: real)
    requires 0.0 <= r < 1.0 && c >= 0.0
    ensures 0.0 <= r * c <= c
    ensures c > 0.0 ==> r * c < c
  {
    assert (1.0 - r) * c >= 0.0;
    if c > 0.0 {
      assert (1.0 - r) * c > 0.0;
    }
  }

  /**
   * A freshly initialised record starts inside the window (at its far edge
   * only when the window is exactly one box wide or high), and each velocity
   * component lies in [-1.5, 1.5).
   */
  lemma InitActorBounds(w: real, h: real, d: Draws)
    requires ValidDraws(d) && w >= Size && h >= Size
    ensures ActorInBounds(InitActor(w, h, d), w, h)
    ensures w > Size ==> InitActor(w, h, d).x < w - Size
    ensures h > Size ==> InitActor(w, h, d).y < h - Size
    ensures -1.5 <= InitActor(w, h, d).vx < 1.5
    ensures -1.5 <= InitActor(w, h, d).vy < 1.5
  {
    var a, cw, ch := InitActor(w, h, d), w - Size, h - Size;
    ScaledDraw(d.r1, cw);
    assert a.x == d.r1 * cw;
    ScaledDraw(d.r2, ch);
    assert a.y == d.r2 * ch;
  }

  /** All records start inside the window when every draw is in [0, 1). */
  lemma InitInBounds(w: real, h: real, draws: seq<Draws>)
    requires w >= Size && h >= Size
    requires forall i :: 0 <= i < |draws| ==> ValidDraws(draws[i])
    ensures InBounds(InitStates(w, h, draws), w, h)
  {
    forall i | 0 <= i < |draws|
      ensures ActorInBounds(InitStates(w, h, draws)[i], w, h)
    {
      InitActorBounds(w, h, draws[i]);
    }
  }

  // ---------------------------------------------------------------------------
  // One frame

  /**
   * Moves one coordinate by its velocity, then reflects it on the near edge 0
   * (tested first) or the far edge `limit`: the coordinate is clamped to the
   * edge and the velocity is pointed inward with its magnitude kept.
   */
  function StepAxis(pos: real, vel: real, limit: real): (r: Axis)
    // the clamps keep the coordinate inside [0, limit], whatever it was before
    ensures 0.0 <= limit ==> 0.0 <= r.pos <= limit
    // reflection is elastic: the speed is unchanged and the sign flips at most once
    ensures Abs(r.vel) == Abs(vel) && (r.vel == vel || r.vel == -vel)
    // at or past the near edge the velocity points inward (or is zero)
    ensures pos + vel <= 0.0 ==> r.pos == 0.0 && r.vel >= 0.0
    // at or past the far edge (and not at the near one) it points back
    ensures 0.0 < pos + vel && limit <= pos + vel ==> r.pos == limit && r.vel <= 0.0
    // a velocity already pointing inward at an edge is kept, not flipped again
    ensures pos + vel <= 0.0 && vel >= 0.0 ==> r.vel == vel
    ensures 0.0 < pos + vel && limit <= pos + vel && vel <= 0.0 ==> r.vel == vel
    // strictly inside, the record just moves
    ensures 0.0 < pos + vel < limit ==> r.pos == pos + vel && r.vel == vel
  {
    var moved := pos + vel;
    if moved <= 0.0 then Axis(0.0, Abs(vel))
    else if moved >= limit then Axis(limit, -Abs(vel))
    else Axis(moved, vel)
  }

  /** One frame for one present record: both axes, each against its own window extent. */
  function Step(a: ActorState, w: real, h: real): (r: ActorState)
    ensures w >= Size && h >= Size ==> ActorInBounds(r, w, h)
    ensures Abs(r.vx) == Abs(a.vx) && Abs(r.vy) == Abs(a.vy)
  {
    var hor := StepAxis(a.x, a.vx, w - Size);
    var ver := StepAxis(a.y, a.vy, h - Size);
    ActorState(hor.pos, ver.pos, hor.vel, ver.vel)
  }

  /**
   * One frame for all records: a record whose element exists is stepped from
   * its own fields; every other record is left as it was.
   */
  function TickStates(s: seq<ActorState>, present: seq<bool>, w: real, h: real): (r: seq<ActorState>)
    ensures |r| == |s|
    ensures forall i :: 0 <= i < |s| && i < |present| && present[i] ==> r[i] == Step(s[i], w, h)
    ensures forall i :: 0 <= i < |s| && !(i < |present| && present[i]) ==> r[i] == s[i]
    // every present record ends inside the window, whatever its position before
    ensures w >= Size && h >= Size ==>
      forall i :: 0 <= i < |s| && i < |present| && present[i] ==> ActorInBounds(r[i], w, h)
    // a frame keeps the records inside the window once they are
    ensures InBounds(s, w, h) ==> InBounds(r, w, h)
  {
    seq(|s|, i requires 0 <= i < |s| =>
      if i < |present| && present[i] then Step(s[i], w, h) else s[i])
  }

  // ---------------------------------------------------------------------------
  // Many frames

  /** The records after the given frames, applied in order. */
  function Run(s: seq<ActorState>, frames: seq<Frame>): (r: seq<ActorState>)
    ensures |r| == |s|
    decreases |frames|
  {
    if frames == [] then s
    else
      var last := frames[|frames| - 1];
      TickStates(Run(s, frames[..|frames| - 1]), last.present, last.w, last.h)
  }

  /** While the window keeps its size, records that start inside it stay inside it. */
  lemma {:induction false} RunInBounds(s: seq<ActorState>, frames: seq<Frame>, w: real, h: real)
    requires InBounds(s, w, h)
    requires forall k :: 0 <= k < |frames| ==> frames[k].w == w && frames[k].h == h
    ensures InBounds(Run(s, frames), w, h)
    decreases |frames|
  {
    if frames != [] {
      RunInBounds(s, frames[..|frames| - 1], w, h);
    }
  }

  /**
   * From initialisation with draws in [0, 1) in a window at least one box wide
   * and high, every record is inside the window after any number of frames.
   */
  lemma {:induction false} SimulationInBounds(w: real, h: real, draws: seq<Draws>, frames: seq<Frame>)
    requires w >= Size && h >= Size
    requires forall i :: 0 <= i < |draws| ==> ValidDraws(draws[i])
    requires forall k :: 0 <= k < |frames| ==> frames[k].w == w && frames[k].h == h
    ensures InBounds(Run(InitStates(w, h, draws), frames), w, h)
  {
    InitInBounds(w, h, draws);
    RunInBounds(InitStates(w, h, draws), frames, w, h);
  }

  /** No frame gains or loses speed: each record keeps |vx| and |vy| forever. */
  lemma {:induction false} RunPreservesSpeed(s: seq<ActorState>, frames: seq<Frame>)
    ensures forall i :: 0 <= i < |s| ==>
      Abs(Run(s, frames)[i].vx) == Abs(s[i].vx) && Abs(Run(s, frames)[i].vy) == Abs(s[i].vy)
    decreases |frames|
  {
    if frames != [] {
      RunPreservesSpeed(s, frames[..|frames| - 1]);
    }
  }

  /** A record whose element never exists is never touched. */
  lemma {:induction false} RunSkipsAbsent(s: seq<ActorState>, frames: seq<Frame>, i: int)
    requires 0 <= i < |s|
    requires forall k :: 0 <= k < |frames| ==> !PresentAt(frames[k], i)
    ensures Run(s, frames)[i] == s[i]
    decreases |frames|
  {
    if frames != [] {
      RunSkipsAbsent(s, frames[..|frames| - 1], i);
    }
  }

  /** A record's trajectory depends on its own initial fields only, not on the other records. */
  lemma {:induction false} RunOwnRecordOnly(s: seq<ActorState>, t: seq<ActorState>, frames: seq<Frame>, i: int)
    requires 0 <= i < |s| && i < |t| && s[i] == t[i]
    ensures Run(s, frames)[i] == Run(t, frames)[i]
    decreases |frames|
  {
    if frames != [] {
      RunOwnRecordOnly(s, t, frames[..|frames| - 1], i);
    }
  }

  /**
   * The horizontal motion is independent of the vertical one: it depends on
   * x, vx, the window widths and the presence of the element only.
   */
  lemma {:induction false} RunHorizontalIndependent(
    s: seq<ActorState>, t: seq<ActorState>, fs: seq<Frame>, ft: seq<Frame>, i: int)
    requires 0 <= i < |s| && i < |t| && s[i].x == t[i].x && s[i].vx == t[i].vx
    requires |fs| == |ft|
    requires forall k :: 0 <= k < |fs| ==> fs[k].w == ft[k].w && (PresentAt(fs[k], i) <==> PresentAt(ft[k], i))
    ensures Run(s, fs)[i].x == Run(t, ft)[i].x && Run(s, fs)[i].vx == Run(t, ft)[i].vx
    decreases |fs|
  {
    if fs != [] {
      RunHorizontalIndependent(s, t, fs[..|fs| - 1], ft[..|ft| - 1], i);
    }
  }

  /**
   * The vertical motion is independent of the horizontal one: it depends on
   * y, vy, the window heights and the presence of the element only.
   */
  lemma {:induction false} RunVerticalIndependent(
    s: seq<ActorState>, t: seq<ActorState>, fs: seq<Frame>, ft: seq<Frame>, i: int)
    requires 0 <= i < |s| && i < |t| && s[i].y == t[i].y && s[i].vy == t[i].vy
    requires |fs| == |ft|
    requires forall k :: 0 <= k < |fs| ==> fs[k].h == ft[k].h && (PresentAt(fs[k], i) <==> PresentAt(ft[k], i))
    ensures Run(s, fs)[i].y == Run(t, ft)[i].y && Run(s, fs)[i].vy == Run(t, ft)[i].vy
    decreases |fs|
  {
    if fs != [] {
      RunVerticalIndependent(s, t, fs[..|fs| - 1], ft[..|ft| - 1], i);
    }
  }
}
