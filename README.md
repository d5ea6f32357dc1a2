# Bouncing characters of the home page

The home page shows four characters (`2`, `2`, `1`, `B`) that float over the
hero section. Each one bounces off the edges of the browser window. The
`BouncingCharacters` component keeps one record `{x, y, vx, vy}` per
character. It builds these records once from random numbers when it mounts
and updates them in place on every animation frame. Each frame, every
character whose element exists does two things:

- it moves by its velocity;
- on each axis, it is clamped to the window: at or past the near edge (0) the
  coordinate becomes 0 and its velocity is made non-negative with `Math.abs`;
  otherwise, at or past the far edge (window extent minus the box size 150), the
  coordinate becomes that edge and the velocity is made non-positive.

This project models that simulation in two modules:

- `Bounce` (`bounce.dfy`) holds the dynamics on values: a record
  (`ActorState`), one axis of one frame (`StepAxis`), one record for one frame
  (`Step`), all records for one frame (`TickStates`), a sequence of frames
  (`Run`) and initialisation from the random draws (`InitActor`, `InitStates`).
  It also holds the lemmas about them: the window bounds are kept, speed is
  preserved, absent characters are skipped, and records and axes are
  independent of each other.
- `Home` (`home.dfy`) holds the component as it runs. `Actor` is one mutable
  record. `BouncingCharacters` holds the sequence of records. Its constructor
  is the mount-time initialisation, and `Update` is the per-frame loop, which
  changes the records' fields in place. Both are proved against the functions
  of `Bounce`.

Positions and velocities are `real`. The per-frame update uses `+`, `-`,
negation, comparisons and `Math.abs`, and initialisation multiplies; no
property proved here depends on floating-point rounding.
The window size `w`, `h` and which elements exist (`present`) are parameters of
each frame. The four values `Math.random` returns for a character are a
parameter (`Draws`) of the initialisation.

Details the code settles, which the model follows:

- The box size is 150 pixels on both axes.
- At an edge the velocity is not simply negated. `Math.abs` points it inward, so
  a component that already points inward is kept rather than flipped again.
- A fresh position satisfies `0 <= x <= w - 150`. It is strictly below
  `w - 150` only when the window is wider than one box, because a window
  exactly 150 wide puts every character at 0 = `w - 150`. The same holds for `y`.
- `Update` does not require the window to be at least one box wide or high,
  because the code does not either. The bounds lemmas assume it, since the
  bounds cannot hold otherwise. In a window smaller than one box, the
  clamps send a moving character back and forth between 0 and `w - 150` on
  alternate frames.

## Model

| member | source | states |
|---|---|---|
| Bounce.StepAxis | src/components/Home.jsx:26-34 | One axis of one frame: when the far edge is not negative, the new coordinate lies in [0, far edge] whatever it was before. The speed is unchanged and the sign flips at most once. At or past the near edge the coordinate is 0 and the velocity is non-negative. At or past the far edge it is that edge and the velocity is non-positive. A velocity that already points inward is kept. Strictly inside, the coordinate just moves and the velocity is kept. |
| Bounce.Step | src/components/Home.jsx:25-34 | One present record for one frame: in a window at least one box wide and high the record ends inside it, and both speeds are preserved. |
| Bounce.TickStates | src/components/Home.jsx:23-35 | One frame for all records: a present record is stepped from its own fields, and every other record is left exactly as it was. In a window at least one box each way, every present record ends in bounds. A frame keeps records that were in bounds in bounds. |
| Bounce.InitActorBounds | src/components/Home.jsx:13-18 | With draws in [0, 1) and a window at least 150 each way, a fresh record lies inside the window. It is strictly below the far edge when the window is larger than one box. Each velocity component lies in [-1.5, 1.5). |
| Bounce.InitInBounds | src/components/Home.jsx:13-18 | All freshly initialised records lie inside the window, so the bounds invariant holds before the first frame. |
| Bounce.RunInBounds | src/components/Home.jsx:22-38 | While the window keeps its size, records that start inside it stay inside it after any number of frames. |
| Bounce.SimulationInBounds | src/components/Home.jsx:13-41 | From mount-time initialisation, every record is inside the window after any number of frames of a window at least one box each way. |
| Bounce.RunPreservesSpeed | src/components/Home.jsx:30-34 | After any number of frames each record still has the absolute values of its initial vx and vy: reflection is elastic. |
| Bounce.RunSkipsAbsent | src/components/Home.jsx:23-24 | A record whose element never exists is left unchanged by any number of frames. |
| Bounce.RunOwnRecordOnly | src/components/Home.jsx:23-35 | A record's trajectory depends only on its own initial value, never on the other records. |
| Bounce.RunHorizontalIndependent | src/components/Home.jsx:26-31 | The horizontal motion (x, vx) after any frames depends only on the initial x, vx, the window widths and the element's presence, not on y, vy or the heights. |
| Bounce.RunVerticalIndependent | src/components/Home.jsx:27-34 | The vertical motion (y, vy) after any frames depends only on the initial y, vy, the window heights and the element's presence, not on x, vx or the widths. |
| Home.BouncingCharacters.constructor | src/components/Home.jsx:13-18 | Mounting builds one distinct record object per character. The records' values are those of the initialisation function on the given draws. |
| Home.BouncingCharacters.Update | src/components/Home.jsx:22-37 | One frame mutates the records in place. Their new values are the frame function applied to their old values: present characters move and bounce, and the rest are untouched. In a window of at least one box, every present record ends in bounds, and records in bounds stay in bounds. |

## Left out

- The loop scheduling with `requestAnimationFrame` and its cancellation on unmount (src/components/Home.jsx:38-42) is browser frame plumbing. A sequence of frames is modelled by `Bounce.Run` instead.
- The write of each record's position to the element's style transform (src/components/Home.jsx:36) is a DOM side effect with no logic, so it is not modelled.
- The window size (`window.innerWidth`, `window.innerHeight`) is read from the browser. Here it is a parameter of each frame.
- `Math.random` is nondeterministic. Its four values per character are a parameter of initialisation, and only the lemmas assume they lie in [0, 1).
- IEEE-754 rounding and the sign of zero of JavaScript numbers are not modelled; positions and velocities are exact reals.
- The rendering of the characters (src/components/Home.jsx:45-57) is markup and is not modelled. Neither is how React fills the element references (a reference exists or does not), which becomes the `present` flags.
- The scroll-driven animation timelines of the page (src/components/Home.jsx:60-294 and src/components/Cases.jsx) are left out. They are configuration handed to an external animation library whose behaviour is not visible.
- The router, password gate, header menu and bootstrap (src/App.jsx, src/components/Header.jsx, src/main.jsx) are presentation with no stateable logic, so they are not modelled.
