/**
 * The bouncing-character overlay of the home page as the component keeps it:
 * an array of mutable records, built once on mount and updated in place once
 * per animation frame.
 */
module Home {
  import opened Bounce

  /** One mutable record `{x, y, vx, vy}` of the simulation. */
  class Actor {
    var x: real
    var y: real
    var vx: real
    var vy: real

    constructor (s: ActorState)
      ensures State() == s
    {
      x, y, vx, vy := s.x, s.y, s.vx, s.vy;
    }

    /** The record's current value. */
    function State(): ActorState
      reads this
    {
      ActorState(x, y, vx, vy)
    }
  }

  /** The overlay component: one record per character, advanced by `Update`. */
  class BouncingCharacters {
    const data: seq<Actor>

    /** The records the simulation may change. */
    ghost function Repr(): set<object> {
      set k | 0 <= k < |data| :: data[k]
    }

    /** The records are distinct objects, so updating one leaves the others alone. */
    ghost predicate Valid() {
      forall j, k :: 0 <= j < k < |data| ==> data[j] != data[k]
    }

    /** The current value of every record, in character order. */
    ghost function States(): seq<ActorState>
      reads Repr()
    {
      seq(|data|, k reads Repr() requires 0 <= k < |data| => data[k].State())
    }

    /**
     * Mounting the component: one record per character, position and velocity
     * taken from that character's draws.
     */
    constructor (w: real, h: real, draws: seq<Draws>)
      requires |draws| == |Chars|
      ensures Valid() && fresh(Repr())
      ensures States() == InitStates(w, h, draws)
    {
      var acc: seq<Actor> := [];
      var k := 0;
      while k < |draws|
        invariant k <= |draws| && |acc| == k
        invariant forall j :: 0 <= j < k ==> fresh(acc[j]) && acc[j].State() == InitActor(w, h, draws[j])
        invariant forall j, l :: 0 <= j < l < k ==> acc[j] != acc[l]
      {
        var a := new Actor(InitActor(w, h, draws[k]));
        acc := acc + [a];
        k := k + 1;
      }
      data := acc;
    }

    /**
     * One animation frame in a `w` by `h` window: every character whose
     * element exists moves by its velocity and bounces off the window's edges;
     * every other record is left as it was.
     */
    method Update(w: real, h: real, present: seq<bool>)
      requires Valid()
      requires |present| <= |data|
      modifies Repr()
      ensures States() == TickStates(old(States()), present, w, h)
      ensures w >= Size && h >= Size ==>
        forall k :: 0 <= k < |present| && present[k] ==> ActorInBounds(data[k].State(), w, h)
      ensures InBounds(old(States()), w, h) ==> InBounds(States(), w, h)
    {
      var i := 0;
      while i < |present|
        invariant 0 <= i <= |present|
        invariant forall j :: 0 <= j < i ==>
          data[j].State() == if present[j] then Step(old(data[j].State()), w, h) else old(data[j].State())
        invariant forall j :: i <= j < |data| ==> data[j].State() == old(data[j].State())
      {
        if present[i] {
          var d := data[i];
          d.x := d.x + d.vx;
          d.y := d.y + d.vy;
          if d.x <= 0.0 {
            d.vx := Abs(d.vx);
            d.x := 0.0;
          } else if d.x >= w - Size {
            d.vx := -Abs(d.vx);
            d.x := w - Size;
          }
          if d.y <= 0.0 {
            d.vy := Abs(d.vy);
            d.y := 0.0;
          } else if d.y >= h - Size {
            d.vy := -Abs(d.vy);
            d.y := h - Size;
          }
        }
        i := i + 1;
      }
    }
  }
}
