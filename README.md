# TPG5 game core in Dafny

TPG5 is a small arcade game: the player steers a square around the screen, AI
squares chase it, and the score grows with the time survived. This project
models the core of the game and proves properties of that model:

- the physics engine (`PhysEngine`, `PhysObject`). Each tick registers new
  bodies, reflects bodies off the screen edges, finds and resolves contacts
  between bodies, applies gravity and moves every body by its velocity.
- the game body (`GamePhysObject`): its bounding box and its fading trail.
- the colour packing helpers (`StaticUtils.toARGB` / `fromARGB`).
- the score display (`ScoreHUD`): scoring per frame and the number and
  suffix of the shown score.
- the statistics display (`StatsHUD`): death counters, the high score read
  from the configuration, and the two distinct taunt lines.
- the UI container (`UXEngine`) and its widgets (`Button`, `Switch`).
- the string table (`I18N`).
- the parts of the sketch (`SketchMain`) that carry logic:
  - the key map;
  - player input and friction;
  - scene setup;
  - tracking;
  - the high-score table update.

Modules follow the source files:

| module | file |
|---|---|
| `Util` | shared vectors, boxes and render objects |
| `Argb` | colour packing |
| `Bodies` | `PhysObject` |
| `Collision` | the collision arithmetic and the broad-phase cull |
| `Boundaries` | the screen-edge phase |
| `Contacts` | the contact relation, contact resolution and contact events |
| `Narrow` | the narrow phase |
| `Physics` | `PhysEngine` |
| `Trail` | `GamePhysObject` |
| `Score` | `ScoreHUD` |
| `Stats` | `StatsHUD` |
| `Ux` | `UXEngine` |
| `Widgets` | `Button` and `Switch` |
| `I18n` | `I18N` |
| `Sketch` | `SketchMain` |

Classes stand for the objects the source updates in place. Their methods
are proved against specification functions, and the properties are proved
as lemmas about those functions.

Modelling conventions:

- Floating-point values are `real`.
- The configuration file is the `Option` values it would yield.
- Random draws, the arena size and the key and mouse events are parameters.
- Listener calls are recorded in an event log.

## Model

| member | source | states |
|---|---|---|
| Argb.ToArgb | src/com/michaelRunzler/TPG5/Util/StaticUtils.java:13-15 | the four components of a colour, each in 0..255 |
| Argb.FromArgb | src/com/michaelRunzler/TPG5/Util/StaticUtils.java:20-22 | the packed colour of the low eight bits of the first four components (definition; PackDigits and FromToArgb state its meaning) |
| Argb.PackDigits | src/com/michaelRunzler/TPG5/Util/StaticUtils.java:13-22 | splitting four packed in-range components gives them back in order A, R, G, B |
| Argb.FromToArgb | src/com/michaelRunzler/TPG5/Util/StaticUtils.java:13-22 | packing the components of any 32-bit colour gives the colour back |
| Argb.ToFromArgb | src/com/michaelRunzler/TPG5/Util/StaticUtils.java:13-22 | splitting the packing of four in-range components gives them back |
| Argb.FromArgbMasks | src/com/michaelRunzler/TPG5/Util/StaticUtils.java:20-22 | packing reads only the low eight bits of each of the first four components |
| Bodies.NewBody | src/com/michaelRunzler/TPG5/Engine/Physics/PhysObject.java:25-32 | a new body has UID "INV", mass 1, is at rest at the origin, has point bounds and no handlers |
| Bodies.Energy | src/com/michaelRunzler/TPG5/Engine/Physics/PhysObject.java:39-41 | the mass times the sum of the two velocity components (definition) |
| Bodies.EnergyZeroIff | src/com/michaelRunzler/TPG5/Engine/Physics/PhysObject.java:39-41 | the energy is zero exactly when the mass is zero or the velocity components cancel |
| Bodies.EnergyNotKinetic | src/com/michaelRunzler/TPG5/Engine/Physics/PhysObject.java:35-41 | unlike the kinetic energy its comment promises, a body moving at (1, -1) has none and one moving at (-1, 0) has a negative energy |
| Bodies.Bounds | src/com/michaelRunzler/TPG5/Engine/Physics/PhysObject.java:49-51 | the box of a point body, or the square of a game body (definition; BoundsShape states it) |
| Bodies.BoundsShape | src/com/michaelRunzler/TPG5/Engine/GamePhysObject.java:145-148 | a game body's box is the square of side `size` centred on its coordinates; a plain body's box is the degenerate point box |
| Bodies.BoundsIgnoreVelocity | src/com/michaelRunzler/TPG5/Engine/Physics/PhysObject.java:49-51 | bounds do not depend on velocity |
| Bodies.AddCollisionCallback | src/com/michaelRunzler/TPG5/Engine/Physics/PhysObject.java:79-81 | the handler is appended and nothing else of the body changes |
| Bodies.Calls | src/com/michaelRunzler/TPG5/Engine/Physics/PhysObject.java:70-72 | one call per handler, in registration order, each with (this, collided) |
| Bodies.AddedHandlerCalledLast | src/com/michaelRunzler/TPG5/Engine/Physics/PhysObject.java:70-81 | a handler added by addCollisionCallback is called after all earlier ones |
| Bodies.Collision | src/com/michaelRunzler/TPG5/Engine/Physics/PhysObject.java:70-72 | the loop makes exactly the calls of `Calls` |
| Collision.StaticCollisionCalc | src/com/michaelRunzler/TPG5/Engine/Physics/PhysEngine.java:318-330 | the result never has the velocity's sign and its magnitude is the old one less the penalty, or 0 when the penalty covers it |
| Collision.StaticCalcNoPenalty | src/com/michaelRunzler/TPG5/Engine/Physics/PhysEngine.java:318-330 | with no penalty the velocity is reversed exactly |
| Collision.StaticCalcNeverFaster | src/com/michaelRunzler/TPG5/Engine/Physics/PhysEngine.java:318-330 | a reflection never speeds a body up, and above the penalty it is the reversal moved toward zero by the penalty |
| Collision.Reflections | src/com/michaelRunzler/TPG5/Engine/Physics/PhysEngine.java:336-351 | with opposite signs both bodies bounce; with the same sign (zero counting as positive) the body of larger signed velocity bounces and the other keeps its direction, slowed by the penalty |
| Collision.ReflectionsDirection | src/com/michaelRunzler/TPG5/Engine/Physics/PhysEngine.java:336-351 | for two positive velocities the faster body reverses and the slower keeps going; for two negative velocities the slower body reverses and the faster keeps going |
| Collision.NegativeFasterKeepsDirection | src/com/michaelRunzler/TPG5/Engine/Physics/PhysEngine.java:336-351 | velocities -2 and -1 without penalty become -2 and 1: the faster body keeps its direction |
| Collision.DynamicCollisionCalc | src/com/michaelRunzler/TPG5/Engine/Physics/PhysEngine.java:353-364 | the reflections plus both transfer terms (definition; DynamicCalcExchange and DynamicCalcNoTransfer state its meaning) |
| Collision.DynamicCalcExchange | src/com/michaelRunzler/TPG5/Engine/Physics/PhysEngine.java:353-364 | both bodies receive the same added velocity: the difference of the reflections is kept and their sum scaled by 1 - 2 * modifier * transfer |
| Collision.DynamicCalcNoTransfer | src/com/michaelRunzler/TPG5/Engine/Physics/PhysEngine.java:353-364 | with a zero modifier or transfer the result is the bare reflections |
| Collision.Colliding | src/com/michaelRunzler/TPG5/Engine/Physics/PhysEngine.java:374-386 | the truncated distance from the later start to the end of the interval that starts first (not the width of the intersection when one interval contains the other), 0 when that distance is under a unit, negative when interval 1 starts first |
| Collision.CollidingAntisymmetric | src/com/michaelRunzler/TPG5/Engine/Physics/PhysEngine.java:374-386 | swapping the intervals negates the result |
| Collision.CollidingDisjoint | src/com/michaelRunzler/TPG5/Engine/Physics/PhysEngine.java:374-386 | disjoint intervals never collide |
| Collision.MaxWidth | src/com/michaelRunzler/TPG5/Engine/Physics/PhysEngine.java:185-195 | maxW is at least every width and at least 0 |
| Collision.MaxWidthAttained | src/com/michaelRunzler/TPG5/Engine/Physics/PhysEngine.java:185-195 | maxW is 0 or the width of one of the boxes |
| Collision.MinXs | src/com/michaelRunzler/TPG5/Engine/Physics/PhysEngine.java:186-195 | xCoords holds each box's minX in body order |
| Collision.Prox | src/com/michaelRunzler/TPG5/Engine/Physics/PhysEngine.java:197-207 | the rows of the bodies scanned so far, in order (definition; ProxCount, ProxSorted and ProxMembership state its meaning) |
| Collision.ProxRow | src/com/michaelRunzler/TPG5/Engine/Physics/PhysEngine.java:202-206 | a row of the cull lists only the body being scanned |
| Collision.ProxRange | src/com/michaelRunzler/TPG5/Engine/Physics/PhysEngine.java:197-207 | every entry of prox is a body index |
| Collision.PartnerCountPositive | src/com/michaelRunzler/TPG5/Engine/Physics/PhysEngine.java:199-207 | a body has a positive partner count iff some other body's minX is within maxW |
| Collision.RowOccurrences | src/com/michaelRunzler/TPG5/Engine/Physics/PhysEngine.java:202-206 | row i holds body i once per close partner and no other body |
| Collision.ProxCount | src/com/michaelRunzler/TPG5/Engine/Physics/PhysEngine.java:197-207 | prox lists each body exactly once per other body within maxW |
| Collision.ProxSorted | src/com/michaelRunzler/TPG5/Engine/Physics/PhysEngine.java:197-207 | prox is in non-decreasing body order |
| Collision.ProxMembership | src/com/michaelRunzler/TPG5/Engine/Physics/PhysEngine.java:197-207 | a body is a candidate iff some other body's minX is within maxW of its own |
| Collision.Candidates | src/com/michaelRunzler/TPG5/Engine/Physics/PhysEngine.java:197-207 | the candidate list names bodies only |
| Collision.OverlapImpliesCandidates | src/com/michaelRunzler/TPG5/Engine/Physics/PhysEngine.java:197-207 | the cull has no false negatives: two bodies whose X intervals collide are both candidates |
| Boundaries.AxisFlags | src/com/michaelRunzler/TPG5/Engine/Physics/PhysEngine.java:119-131 | LEFT iff minX <= 0; RIGHT iff minX > 0 and maxX >= width; no X flag otherwise; TOP/BOTTOM likewise on Y |
| Boundaries.XFlag | src/com/michaelRunzler/TPG5/Engine/Physics/PhysEngine.java:119-124 | the X-axis violation (definition; AxisFlags states it) |
| Boundaries.YFlag | src/com/michaelRunzler/TPG5/Engine/Physics/PhysEngine.java:125-131 | the Y-axis violation (definition; AxisFlags states it) |
| Boundaries.StaticVelocity | src/com/michaelRunzler/TPG5/Engine/Physics/PhysEngine.java:119-131 | a body's velocity after the screen-edge phase (definition; StaticVelocityEffect states it) |
| Boundaries.StaticEvent | src/com/michaelRunzler/TPG5/Engine/Physics/PhysEngine.java:133-162 | a body's listener call, if any (definition; StaticEventShape states it) |
| Boundaries.FlagsExact | src/com/michaelRunzler/TPG5/Engine/Physics/PhysEngine.java:168-177 | the kept flags are exactly this tick's axis flags: at most two, never LEFT with RIGHT or TOP with BOTTOM |
| Boundaries.StaticVelocityEffect | src/com/michaelRunzler/TPG5/Engine/Physics/PhysEngine.java:119-131 | an axis with a new flag is reflected with the penalty; an axis with no flag or a held one keeps its velocity; no axis speeds up |
| Boundaries.StaticEventShape | src/com/michaelRunzler/TPG5/Engine/Physics/PhysEngine.java:133-162 | one listener call with no partner iff some flag is new, with direction -1/0/1 per axis given by the flags |
| Boundaries.StaticEvents | src/com/michaelRunzler/TPG5/Engine/Physics/PhysEngine.java:113-162 | no more calls than bodies scanned; which bodies are reported is StaticEventsFor |
| Boundaries.StaticEventsOrdered | src/com/michaelRunzler/TPG5/Engine/Physics/PhysEngine.java:113-162 | calls come in increasing body order and name scanned bodies only |
| Boundaries.StaticEventsFor | src/com/michaelRunzler/TPG5/Engine/Physics/PhysEngine.java:157-162 | body k is reported iff one of its axis flags is not held from the last tick |
| Boundaries.StaticBodies | src/com/michaelRunzler/TPG5/Engine/Physics/PhysEngine.java:113-131 | the pass leaves as many bodies as it scanned; each one's content is StaticBodiesAt |
| Boundaries.StaticBodiesAt | src/com/michaelRunzler/TPG5/Engine/Physics/PhysEngine.java:113-131 | each scanned body changes only its velocity, to its reflected velocity |
| Boundaries.StaticBodiesKeepRects | src/com/michaelRunzler/TPG5/Engine/Physics/PhysEngine.java:113-131 | the pass moves no box |
| Boundaries.StaticParity | src/com/michaelRunzler/TPG5/Engine/Physics/PhysEngine.java:168-177 | the flag register after the scanned bodies (definition; StaticParityAt states it) |
| Boundaries.StaticParityAt | src/com/michaelRunzler/TPG5/Engine/Physics/PhysEngine.java:168-177 | each scanned body's flags become exactly this tick's flags; other entries are kept |
| Boundaries.StaticParityPending | src/com/michaelRunzler/TPG5/Engine/Physics/PhysEngine.java:168-177 | a body not yet scanned keeps its flags |
| Contacts.RemoveFirst | src/com/michaelRunzler/TPG5/Engine/Physics/PhysEngine.java:236-237 | ArrayList.remove drops one occurrence when there is one and leaves the other members |
| Contacts.RemoveFirstNoDup | src/com/michaelRunzler/TPG5/Engine/Physics/PhysEngine.java:236-237 | on a duplicate-free list the removed body is gone entirely |
| Contacts.RemovePair | src/com/michaelRunzler/TPG5/Engine/Physics/PhysEngine.java:235-238 | both remove calls of an untouching pair (definition; RemovePairEffect states it) |
| Contacts.AddPair | src/com/michaelRunzler/TPG5/Engine/Physics/PhysEngine.java:262-263 | both add calls of a new contact (definition; AddPairEffect states it) |
| Contacts.RemovePairEffect | src/com/michaelRunzler/TPG5/Engine/Physics/PhysEngine.java:235-239 | unrelating a pair keeps the contact relation symmetric and duplicate free and changes no other pair |
| Contacts.AddPairEffect | src/com/michaelRunzler/TPG5/Engine/Physics/PhysEngine.java:259-263 | relating an unrelated pair keeps the relation symmetric and duplicate free and changes no other pair |
| Contacts.Rects | src/com/michaelRunzler/TPG5/Engine/Physics/PhysEngine.java:214-221 | the boxes of the bodies, in order |
| Contacts.Touching | src/com/michaelRunzler/TPG5/Engine/Physics/PhysEngine.java:226-235 | on both axes the interval that starts first ends at least a unit after the later start (definition; TouchingSymmetric and the narrow-phase lemmas use it) |
| Contacts.TouchingSymmetric | src/com/michaelRunzler/TPG5/Engine/Physics/PhysEngine.java:226-235 | when the boxes start at different corners, touching does not depend on which body is examined first |
| Contacts.Resolve | src/com/michaelRunzler/TPG5/Engine/Physics/PhysEngine.java:265-270 | resolving a contact changes the velocities of its two bodies only |
| Contacts.ResolveExchange | src/com/michaelRunzler/TPG5/Engine/Physics/PhysEngine.java:243-270 | after resolution the velocity differences of the pair are the differences of their reflections |
| Contacts.ResolveAll | src/com/michaelRunzler/TPG5/Engine/Physics/PhysEngine.java:211-279 | resolving a list of contacts changes velocities only |
| Contacts.ResolveAllKeepsRects | src/com/michaelRunzler/TPG5/Engine/Physics/PhysEngine.java:265-270 | resolution moves no box |
| Contacts.ResolveAllUntouched | src/com/michaelRunzler/TPG5/Engine/Physics/PhysEngine.java:265-270 | a body in no resolved contact keeps its velocity |
| Contacts.PairEvents | src/com/michaelRunzler/TPG5/Engine/Physics/PhysEngine.java:272-274 | a new contact makes two calls, p.collision(c, x, y) then c.collision(p, -x, -y), with non-zero overlaps |
| Contacts.Events | src/com/michaelRunzler/TPG5/Engine/Physics/PhysEngine.java:272-274 | two calls per resolved contact |
| Contacts.EventsOfOrder | src/com/michaelRunzler/TPG5/Engine/Physics/PhysEngine.java:272-274 | the m-th resolved contact is reported by calls 2m and 2m+1 |
| Contacts.ResolveAppend | src/com/michaelRunzler/TPG5/Engine/Physics/PhysEngine.java:259-270 | one more contact is resolved on the velocities the earlier ones left |
| Contacts.EventsAppend | src/com/michaelRunzler/TPG5/Engine/Physics/PhysEngine.java:272-274 | one more contact is reported after the calls of the earlier ones |
| Narrow.SeenStep | src/com/michaelRunzler/TPG5/Engine/Physics/PhysEngine.java:216-226 | each examined position adds exactly the pair (prox[i], prox[j]) |
| Narrow.SeenRowDone | src/com/michaelRunzler/TPG5/Engine/Physics/PhysEngine.java:211-279 | in a sorted prox, finishing the row of position i examines every pair whose first body is prox[i] |
| Narrow.ExamineApart | src/com/michaelRunzler/TPG5/Engine/Physics/PhysEngine.java:235-239 | a non-touching pair is unrelated and the bookkeeping invariant holds after it |
| Narrow.ExamineKnown | src/com/michaelRunzler/TPG5/Engine/Physics/PhysEngine.java:251-259 | a touching pair already related is ignored and the invariant holds |
| Narrow.ExamineNew | src/com/michaelRunzler/TPG5/Engine/Physics/PhysEngine.java:259-274 | a touching pair not yet related is related, resolved once, and the invariant holds |
| Narrow.ExamineSkip | src/com/michaelRunzler/TPG5/Engine/Physics/PhysEngine.java:218-224 | a checked position or a copy of the same body examines nothing |
| Narrow.SeenBefore | src/com/michaelRunzler/TPG5/Engine/Physics/PhysEngine.java:211-279 | the nested loops meet body pairs in increasing pair order |
| Narrow.ResolvedSortedStep | src/com/michaelRunzler/TPG5/Engine/Physics/PhysEngine.java:259-274 | resolved contacts stay in strictly increasing pair order, so none is resolved twice |
| Narrow.NarrowSettled | src/com/michaelRunzler/TPG5/Engine/Physics/PhysEngine.java:209-279 | after the loops every candidate pair is related iff it touches, other pairs are as before, and the resolved contacts are exactly the touching pairs not related before |
| Narrow.SettledTouching | src/com/michaelRunzler/TPG5/Engine/Physics/PhysEngine.java:209-279 | every touching pair ends up related both ways, and is resolved this tick iff it was not related before |
| Narrow.Examine | src/com/michaelRunzler/TPG5/Engine/Physics/PhysEngine.java:226-274 | one examined pair keeps the bodies sized, the relation valid and the boxes in place |
| Narrow.NarrowStep | src/com/michaelRunzler/TPG5/Engine/Physics/PhysEngine.java:216-275 | one examined position keeps the narrow-phase invariant |
| Narrow.ResolveNext | src/com/michaelRunzler/TPG5/Engine/Physics/PhysEngine.java:259-274 | the resolved bodies and the log grow as ResolveAll and Events describe |
| Physics.RegisteredAt | src/com/michaelRunzler/TPG5/Engine/Physics/PhysEngine.java:75-76 | putIfAbsent gives every body an entry, keeps existing ones and makes new ones empty |
| Physics.RegisteredValid | src/com/michaelRunzler/TPG5/Engine/Physics/PhysEngine.java:75-76 | new empty contact lists keep the contact relation valid and complete |
| Physics.Accelerated | src/com/michaelRunzler/TPG5/Engine/Physics/PhysEngine.java:283-290 | staticGravity adds the gravity vector to every velocity and changes nothing else |
| Physics.Moved | src/com/michaelRunzler/TPG5/Engine/Physics/PhysEngine.java:304-311 | updatePosition adds each body's velocity to its position and changes nothing else |
| Physics.MovedSized | src/com/michaelRunzler/TPG5/Engine/Physics/PhysEngine.java:283-311 | gravity and motion keep every box of positive size |
| Physics.StaticBody | src/com/michaelRunzler/TPG5/Engine/Physics/PhysEngine.java:113-177 | one body's new velocity, listener call and kept flags |
| Physics.StaticPass | src/com/michaelRunzler/TPG5/Engine/Physics/PhysEngine.java:111-179 | the loop over all bodies yields StaticBodies, StaticParity and StaticEvents |
| Physics.Extents | src/com/michaelRunzler/TPG5/Engine/Physics/PhysEngine.java:185-195 | the first loop computes maxW and each box's minX |
| Physics.Cull | src/com/michaelRunzler/TPG5/Engine/Physics/PhysEngine.java:197-207 | the second loop builds prox as Prox describes |
| Physics.PhysEngine.constructor | src/com/michaelRunzler/TPG5/Engine/Physics/PhysEngine.java:43-63 | no bodies, empty registers, no gravity or penalties, transfer 0.5, gravity constant 1.0 |
| Physics.PhysEngine.Add | src/com/michaelRunzler/TPG5/Engine/Physics/PhysEngine.java:102-104 | a body added to the simulated list goes last; nothing else changes |
| Physics.PhysEngine.GetObjectByUidMutable | src/com/michaelRunzler/TPG5/Engine/Physics/PhysEngine.java:90-96 | the first body with the UID, or None iff no body has it |
| Physics.PhysEngine.RegisterBodies | src/com/michaelRunzler/TPG5/Engine/Physics/PhysEngine.java:75-76 | both registers gain an empty entry for every body without one |
| Physics.PhysEngine.StaticCollision | src/com/michaelRunzler/TPG5/Engine/Physics/PhysEngine.java:111-179 | the screen-edge phase: reflected velocities, exactly this tick's flags, and one call per body with a new flag |
| Physics.PhysEngine.BroadPhase | src/com/michaelRunzler/TPG5/Engine/Physics/PhysEngine.java:184-207 | the cull yields the candidates of the current boxes |
| Physics.PhysEngine.ExaminePair | src/com/michaelRunzler/TPG5/Engine/Physics/PhysEngine.java:216-275 | one pair step of the narrow phase, as Examine |
| Physics.PhysEngine.ScanRow | src/com/michaelRunzler/TPG5/Engine/Physics/PhysEngine.java:216-278 | the inner loop finishes position i |
| Physics.PhysEngine.ScanAt | src/com/michaelRunzler/TPG5/Engine/Physics/PhysEngine.java:218-275 | one position of the inner loop keeps the narrow-phase invariant |
| Physics.PhysEngine.ScanAll | src/com/michaelRunzler/TPG5/Engine/Physics/PhysEngine.java:210-279 | the outer loop finishes every position of prox |
| Physics.PhysEngine.DynamicCollision | src/com/michaelRunzler/TPG5/Engine/Physics/PhysEngine.java:182-280 | the body-body phase leaves the contact relation settled; the new contacts, each resolved once in increasing pair order, give the velocities and the listener calls |
| Physics.PhysEngine.StaticGravity | src/com/michaelRunzler/TPG5/Engine/Physics/PhysEngine.java:283-290 | every velocity gains the gravity vector |
| Physics.PhysEngine.DynamicGravity | src/com/michaelRunzler/TPG5/Engine/Physics/PhysEngine.java:293-301 | the N-body gravity step changes nothing |
| Physics.PhysEngine.UpdatePosition | src/com/michaelRunzler/TPG5/Engine/Physics/PhysEngine.java:304-311 | every position gains its velocity |
| Physics.PhysEngine.Tick | src/com/michaelRunzler/TPG5/Engine/Physics/PhysEngine.java:69-83 | with no bodies nothing changes; otherwise registration, screen edges, body contacts, gravity and motion compose in that order, keeping every box sized |
| Trail.Current | src/com/michaelRunzler/TPG5/Engine/GamePhysObject.java:60-62 | the outer square has the body size and the inner one CENTER_BORDER_FACTOR of it |
| Trail.Shrink | src/com/michaelRunzler/TPG5/Engine/GamePhysObject.java:82-93 | both squares shrink by delta, the inner one proportionally (definition) |
| Trail.ShrinkAll | src/com/michaelRunzler/TPG5/Engine/GamePhysObject.java:72-96 | every entry shrunk by delta, in order |
| Trail.Aged | src/com/michaelRunzler/TPG5/Engine/GamePhysObject.java:69-99 | ageing never lengthens the trail |
| Trail.Items | src/com/michaelRunzler/TPG5/Engine/GamePhysObject.java:102-107 | two render items per trail entry |
| Trail.AgedFrom | src/com/michaelRunzler/TPG5/Engine/GamePhysObject.java:72-96 | every surviving entry is an old entry wider than delta, shrunk by exactly delta |
| Trail.AgedKeeps | src/com/michaelRunzler/TPG5/Engine/GamePhysObject.java:72-99 | as many entries survive as are wider than delta |
| Trail.Wider | src/com/michaelRunzler/TPG5/Engine/GamePhysObject.java:72-99 | the entries wider than delta, in order (definition) |
| Trail.AgedExact | src/com/michaelRunzler/TPG5/Engine/GamePhysObject.java:72-99 | ageing is exactly: keep the entries wider than delta, in order, and shrink each by delta |
| Trail.AgedProportioned | src/com/michaelRunzler/TPG5/Engine/GamePhysObject.java:83-93 | the inner square shrinks in proportion and stays centred with the outer one |
| Trail.Lifespan | src/com/michaelRunzler/TPG5/Engine/GamePhysObject.java:22-23 | an entry TRAIL_LIFE_FRAMES deltas wide is, after k < TRAIL_LIFE_FRAMES frames, the entry shrunk by k deltas |
| Trail.Expires | src/com/michaelRunzler/TPG5/Engine/GamePhysObject.java:22-23 | the TRAIL_LIFE_FRAMES-th frame of ageing removes the entry |
| Trail.AgedSingle | src/com/michaelRunzler/TPG5/Engine/GamePhysObject.java:75-95 | one entry is removed when no wider than delta, otherwise shrunk |
| Trail.AgeTrail | src/com/michaelRunzler/TPG5/Engine/GamePhysObject.java:72-99 | the ageing loop computes Aged |
| Trail.Emit | src/com/michaelRunzler/TPG5/Engine/GamePhysObject.java:102-111 | the output lists the trail entries, then the current outer and inner squares |
| Trail.Appearance.constructor | src/com/michaelRunzler/TPG5/Engine/GamePhysObject.java:39-49 | a new body has an empty trail and a zero frame counter |
| Trail.Appearance.ClearTrail | src/com/michaelRunzler/TPG5/Engine/GamePhysObject.java:133-135 | the trail becomes empty |
| Trail.Appearance.Render | src/com/michaelRunzler/TPG5/Engine/GamePhysObject.java:52-127 | aged trail items then the current squares; the current squares join the trail once FRAMESKIP frames have passed, restarting the counter at 1 |
| Score.Increment | src/com/michaelRunzler/TPG5/UXE/ScoreHUD.java:76-80 | a scoring frame adds at least one point, and frames/60 points from frame 120 on |
| Score.Steps | src/com/michaelRunzler/TPG5/UXE/ScoreHUD.java:72-84 | n renders in a row (definition; OnePointPerFrame and StepsNeverDecrease state it) |
| Score.Step | src/com/michaelRunzler/TPG5/UXE/ScoreHUD.java:75-84 | one more frame; a scoring frame adds Increment points, a non-scoring one none; the score never decreases |
| Score.OnePointPerFrame | src/com/michaelRunzler/TPG5/UXE/ScoreHUD.java:75-84 | after a reset, n < 120 renders score n - 1 points |
| Score.StepsNeverDecrease | src/com/michaelRunzler/TPG5/UXE/ScoreHUD.java:75-84 | renders never lower the score |
| Score.Exponent | src/com/michaelRunzler/TPG5/UXE/ScoreHUD.java:139-150 | the exponent is 12, 9, 6, 3 or 0: the largest whose power of ten the score exceeds |
| Score.Mantissa | src/com/michaelRunzler/TPG5/UXE/ScoreHUD.java:139-150 | the score divided by ten to the exponent (definition; MantissaRange states it) |
| Score.MantissaRange | src/com/michaelRunzler/TPG5/UXE/ScoreHUD.java:139-150 | below 10^15 a score with an exponent is shown as a number in (1, 1000] |
| Score.TruncatedScore | src/com/michaelRunzler/TPG5/UXE/ScoreHUD.java:133-153 | the loop returns Exponent and Mantissa |
| Score.DecimalMultiplier | src/com/michaelRunzler/TPG5/UXE/ScoreHUD.java:109-130 | at most one letter, and none exactly when the exponent is outside 3..12 |
| Score.SuffixIdentifiesExponent | src/com/michaelRunzler/TPG5/UXE/ScoreHUD.java:109-153 | two scores get the same suffix iff they get the same exponent; only scores above 1000 get one |
| Score.Example | src/com/michaelRunzler/TPG5/UXE/ScoreHUD.java:59-64 | 726120728 is shown as 726.120728 with suffix M |
| Score.ScoreHud.constructor | src/com/michaelRunzler/TPG5/UXE/ScoreHUD.java:24-33 | every counter starts at 0 |
| Score.ScoreHud.Reset | src/com/michaelRunzler/TPG5/UXE/ScoreHUD.java:38-42 | every counter back to 0 |
| Score.ScoreHud.Modify | src/com/michaelRunzler/TPG5/UXE/ScoreHUD.java:48-50 | the score gains delta; the frame counters are kept |
| Score.ScoreHud.Value | src/com/michaelRunzler/TPG5/UXE/ScoreHUD.java:55-57 | the current score |
| Score.ScoreHud.Render | src/com/michaelRunzler/TPG5/UXE/ScoreHUD.java:72-94 | one scoring step, then the number and suffix of the new score |
| Stats.FirstFailure | src/com/michaelRunzler/TPG5/UXE/StatsHUD.java:101-105 | the first entry that fails to parse; all before it parse |
| Stats.Max0 | src/com/michaelRunzler/TPG5/UXE/StatsHUD.java:100-105 | the largest of 0 and the values: at least each, and 0 or one of them |
| Stats.ScanHighScore | src/com/michaelRunzler/TPG5/UXE/StatsHUD.java:99-109 | the largest of 0 and the entries before the first parse failure (definition; HighScoreOfParsedTable and HighScoreStopsAtFailure state it) |
| Stats.HighScoreOfParsedTable | src/com/michaelRunzler/TPG5/UXE/StatsHUD.java:99-105 | a table that parses yields its largest entry, or 0 |
| Stats.HighScoreStopsAtFailure | src/com/michaelRunzler/TPG5/UXE/StatsHUD.java:102-109 | entries after the first parse failure do not count |
| Stats.PickTaunts | src/com/michaelRunzler/TPG5/UXE/StatsHUD.java:51-58 | the second taunt is the first draw differing from the first; all draws between equal the first |
| Stats.StatsHud.constructor | src/com/michaelRunzler/TPG5/UXE/StatsHUD.java:39-62 | no session deaths and two different taunts; without usable persistence data the other counters are 0 |
| Stats.StatsHud.CountSessionDeath | src/com/michaelRunzler/TPG5/UXE/StatsHUD.java:67-70 | both death counters gain one |
| Stats.StatsHud.GetSessionDeaths | src/com/michaelRunzler/TPG5/UXE/StatsHUD.java:75-77 | the session death counter |
| Stats.StatsHud.GetTotalDeaths | src/com/michaelRunzler/TPG5/UXE/StatsHUD.java:82-84 | the total death counter |
| Stats.StatsHud.ResetSessionDeaths | src/com/michaelRunzler/TPG5/UXE/StatsHUD.java:117-119 | the session counter restarts; everything else is kept |
| Stats.StatsHud.UpdateStatsFromCfg | src/com/michaelRunzler/TPG5/UXE/StatsHUD.java:89-111 | with a readable death total: total = stored total + session deaths and high score = best entry before the first parse failure (0 without a table); otherwise nothing changes |
| Ux.DispatchExact | src/com/michaelRunzler/TPG5/Engine/UXEngine.java:65-76 | an element receives the event iff it is a keyboard event or the mouse position is inside it, each at most once, in list order |
| Ux.Dispatch | src/com/michaelRunzler/TPG5/Engine/UXEngine.java:65-76 | the indices of the receiving elements, in order (definition; DispatchExact states it) |
| Ux.KeyboardReachesAll | src/com/michaelRunzler/TPG5/Engine/UXEngine.java:65-76 | keyboard events reach every element in order |
| Ux.FlattenLength | src/com/michaelRunzler/TPG5/Engine/UXEngine.java:29-46 | the flat array is as long as the summed outputs |
| Ux.Flatten | src/com/michaelRunzler/TPG5/Engine/UXEngine.java:44-50 | the outputs one after the other (definition; FlattenAt states it) |
| Ux.FlattenAppend | src/com/michaelRunzler/TPG5/Engine/UXEngine.java:44-50 | flattening distributes over concatenation |
| Ux.FlattenAt | src/com/michaelRunzler/TPG5/Engine/UXEngine.java:44-50 | each output sits, in order, at its offset in the flat array |
| Ux.CopyInto | src/com/michaelRunzler/TPG5/Engine/UXEngine.java:48 | arraycopy writes the output at the index and keeps what precedes it |
| Ux.Copy | src/com/michaelRunzler/TPG5/Engine/UXEngine.java:44-52 | the copy loop yields the outputs concatenated |
| Ux.UxEngine.constructor | src/com/michaelRunzler/TPG5/Engine/UXEngine.java:18-24 | the elements are managed in the given order; no static objects |
| Ux.UxEngine.Render | src/com/michaelRunzler/TPG5/Engine/UXEngine.java:27-53 | the element outputs in list order, then the static objects |
| Ux.UxEngine.Interact | src/com/michaelRunzler/TPG5/Engine/UXEngine.java:65-76 | the elements the event is passed to are Dispatch's |
| Widgets.Button.constructor | src/com/michaelRunzler/TPG5/UXE/Button.java:37-50 | the fields as given |
| Widgets.Button.Interact | src/com/michaelRunzler/TPG5/UXE/Button.java:76-81 | the action fires iff there is one and the event is not a mouse press outside the button |
| Widgets.Button.Fires | src/com/michaelRunzler/TPG5/UXE/Button.java:76-81 | the action is called: there is one, and the event is not a press outside (definition; PressInside states it) |
| Widgets.Button.SetText | src/com/michaelRunzler/TPG5/UXE/Button.java:70-73 | a missing text keeps the old one |
| Widgets.Button.Render | src/com/michaelRunzler/TPG5/UXE/Button.java:84-110 | image (if any), then background (unless an image with border disabled), then the text, last; two or three items |
| Widgets.PressInside | src/com/michaelRunzler/TPG5/UXE/Button.java:76-81 | inside the button the action fires iff set; events other than presses fire regardless of position |
| Widgets.Darker | src/com/michaelRunzler/TPG5/UXE/Switch.java:96 | a channel is 24 darker, clamped at 0 |
| Widgets.ChannelColor | src/com/michaelRunzler/TPG5/UXE/Switch.java:93-98 | alpha kept, each colour channel Darker |
| Widgets.SliderBounded | src/com/michaelRunzler/TPG5/UXE/Switch.java:67-76 | the slider stays within one step of the channel |
| Widgets.SliderStep | src/com/michaelRunzler/TPG5/UXE/Switch.java:67-76 | one frame of slider motion (definition; SliderBounded, SliderEnds and SliderTravel state it) |
| Widgets.SliderEnds | src/com/michaelRunzler/TPG5/UXE/Switch.java:67-76 | at rest at an end the slider stays while the state agrees and starts moving when it flips |
| Widgets.SliderTravel | src/com/michaelRunzler/TPG5/UXE/Switch.java:67-76 | switched on at the left end, the slider reaches the right end after 1/SLIDER_CHANGE = 25 frames, one step per frame |
| Widgets.Switch.constructor | src/com/michaelRunzler/TPG5/UXE/Switch.java:27-32 | off, slider at the left, channel colour a darker shade of the background |
| Widgets.Switch.WithImage | src/com/michaelRunzler/TPG5/UXE/Switch.java:34-39 | off, slider at the left, default grey channel |
| Widgets.Switch.Toggle | src/com/michaelRunzler/TPG5/UXE/Switch.java:41-43 | the state flips; nothing else changes |
| Widgets.Switch.SetState | src/com/michaelRunzler/TPG5/UXE/Switch.java:45-47 | the state is set; nothing else changes |
| Widgets.Switch.GetState | src/com/michaelRunzler/TPG5/UXE/Switch.java:49-51 | the state |
| Widgets.Switch.Interact | src/com/michaelRunzler/TPG5/UXE/Switch.java:87-91 | the button's action as for a button; a mouse press flips the state wherever it happens |
| Widgets.Switch.Render | src/com/michaelRunzler/TPG5/UXE/Switch.java:53-85 | the slider moves one step; the button's parts without its text, then label, channel and slider |
| I18n.Decimal | src/com/michaelRunzler/TPG5/Util/I18N.java:54 | the decimal digits of a taunt index |
| I18n.Lookup | src/com/michaelRunzler/TPG5/Util/I18N.java:65-69 | the stored text, or the empty string when the locale has none for the ID |
| I18n.Added | src/com/michaelRunzler/TPG5/Util/I18N.java:71-74 | the locale exists afterwards and maps the ID to the content |
| I18n.AddedKeys | src/com/michaelRunzler/TPG5/Util/I18N.java:71-74 | addEntry adds the locale if missing and the ID to it; no other locale or ID appears |
| I18n.AddThenGet | src/com/michaelRunzler/TPG5/Util/I18N.java:65-74 | after addEntry(loc, id, s), getString(loc, id) is s |
| I18n.AddIsolated | src/com/michaelRunzler/TPG5/Util/I18N.java:71-74 | addEntry changes no other (locale, ID) entry |
| I18n.DecimalInjective | src/com/michaelRunzler/TPG5/Util/I18N.java:52-55 | different numbers have different decimal renderings |
| I18n.TauntIdsDistinct | src/com/michaelRunzler/TPG5/Util/I18N.java:52-55 | taunt IDs of different indices differ |
| I18n.FixedNotTaunt | src/com/michaelRunzler/TPG5/Util/I18N.java:17-28 | no fixed ID is a taunt ID |
| I18n.FixedTable | src/com/michaelRunzler/TPG5/Util/I18N.java:36-49 | the ten fixed addEntry calls in source order (definition) |
| I18n.FixedFirstEntries | src/com/michaelRunzler/TPG5/Util/I18N.java:36-40 | the first five calls give their IDs their texts |
| I18n.FixedRestEntries | src/com/michaelRunzler/TPG5/Util/I18N.java:41-49 | the last five calls give their IDs their texts and keep the first five |
| I18n.FixedTableKeys | src/com/michaelRunzler/TPG5/Util/I18N.java:36-49 | the ten calls add the English locale and no other |
| I18n.FixedTableEntries | src/com/michaelRunzler/TPG5/Util/I18N.java:36-49 | after the ten calls every fixed ID has its English text; no later call overwrites an earlier one |
| I18n.Dictionary.constructor | src/com/michaelRunzler/TPG5/Util/I18N.java:31-56 | one locale, English; all ten fixed entries and every generated taunt are registered |
| I18n.Dictionary.AddFixed | src/com/michaelRunzler/TPG5/Util/I18N.java:36-49 | the ten fixed addEntry calls; afterwards each fixed ID has its English text and English is the only locale added |
| I18n.Dictionary.AddTaunts | src/com/michaelRunzler/TPG5/Util/I18N.java:51-55 | every taunt under its ID, and no other entry changes |
| I18n.Dictionary.GetString | src/com/michaelRunzler/TPG5/Util/I18N.java:65-69 | the stored text, or the empty string |
| I18n.Dictionary.AddEntry | src/com/michaelRunzler/TPG5/Util/I18N.java:71-74 | the dictionary becomes Added |
| Sketch.Insert | src/com/michaelRunzler/TPG5/Sketch/SketchMain.java:448-449 | inserting into an ascending list keeps it ascending and adds exactly the entry |
| Sketch.SortByKey | src/com/michaelRunzler/TPG5/Sketch/SketchMain.java:448-449 | the sort yields an ascending permutation |
| Sketch.InsertWithKey | src/com/michaelRunzler/TPG5/Sketch/SketchMain.java:448-449 | inserting an entry places it after the entries of equal score and keeps every score's entries in their order |
| Sketch.SortByKeyStable | src/com/michaelRunzler/TPG5/Sketch/SketchMain.java:448-449 | the sort is stable like List.sort: the entries of each score keep their input order, so equal scores keep their names in the order read |
| Sketch.Top | src/com/michaelRunzler/TPG5/Sketch/SketchMain.java:448-455 | the new table: one entry fewer than the entries read (its meaning is TopDescending and TopDropsSmallest) |
| Sketch.HighestFirst | src/com/michaelRunzler/TPG5/Sketch/SketchMain.java:452-455 | the sorted list from the last entry down, without the first |
| Sketch.TopDescending | src/com/michaelRunzler/TPG5/Sketch/SketchMain.java:452-455 | the new table is in descending score order |
| Sketch.TopDropsSmallest | src/com/michaelRunzler/TPG5/Sketch/SketchMain.java:443-455 | the new table holds all old entries and the new one except one entry of the smallest score |
| Sketch.Entries | src/com/michaelRunzler/TPG5/Sketch/SketchMain.java:443-445 | the stored pairs in order, then this round with its name or "N/A" |
| Sketch.Friction | src/com/michaelRunzler/TPG5/Sketch/SketchMain.java:408-412 | a speed below PLAYER_SLOWDOWN stops; otherwise the speed drops by exactly PLAYER_SLOWDOWN without changing direction |
| Sketch.FrictionStops | src/com/michaelRunzler/TPG5/Sketch/SketchMain.java:403-422 | with no key held an axis comes to rest within speed/PLAYER_SLOWDOWN + 1 frames |
| Sketch.SpawnPoint | src/com/michaelRunzler/TPG5/Sketch/SketchMain.java:370-375 | an AI body's spawn point (definition; SpawnPairs states it) |
| Sketch.SpawnPairs | src/com/michaelRunzler/TPG5/Sketch/SketchMain.java:370-375 | bodies 2p and 2p+1 spawn at the same height on opposite sides; even pairs sit (p+1) offsets below the top, odd pairs p offsets above the bottom |
| Sketch.SketchMain.constructor | src/com/michaelRunzler/TPG5/Sketch/SketchMain.java:101-109 | no keys recorded, no last name, the idle state and a zero boost counter |
| Sketch.SketchMain.KeyPressed | src/com/michaelRunzler/TPG5/Sketch/SketchMain.java:217-221 | the key is recorded as held; other keys are unchanged |
| Sketch.SketchMain.KeyReleased | src/com/michaelRunzler/TPG5/Sketch/SketchMain.java:223-227 | the key is recorded as released; other keys are unchanged |
| Sketch.SketchMain.KeyHeld | src/com/michaelRunzler/TPG5/Sketch/SketchMain.java:574-576 | the key is recorded and its last event was a press (definition) |
| Sketch.SketchMain.ReleaseAll | src/com/michaelRunzler/TPG5/Sketch/SketchMain.java:433-435 | every recorded key becomes released; the set of recorded keys is kept |
| Sketch.SketchMain.GetKeyCombo | src/com/michaelRunzler/TPG5/Sketch/SketchMain.java:566-569 | true iff every key is recorded as held; failure iff a key is unrecorded and every earlier one held |
| Sketch.SketchMain.PlayerInput | src/com/michaelRunzler/TPG5/Sketch/SketchMain.java:403-422 | per axis the first held key of its pair accelerates the player, otherwise friction applies |
| Sketch.SketchMain.SetScene | src/com/michaelRunzler/TPG5/Sketch/SketchMain.java:357-386 | every AI stops at its spawn point, the player stops at the centre, the boost counter restarts and the game-over screen shows |
| Sketch.SketchMain.Track | src/com/michaelRunzler/TPG5/Sketch/SketchMain.java:388-401 | a body never tracks itself; otherwise the tracker's record is kept except its velocity, which gains force times the direction; no other body and no other field of the sketch changes |
| Sketch.SketchMain.HighScoreCalc | src/com/michaelRunzler/TPG5/Sketch/SketchMain.java:425-461 | the name is remembered and keys released, and the bodies, the state and the boost counter are kept; when every score parses and has a name the table becomes the top entries in descending order with their names; otherwise it is untouched, and the result says whether the failure escapes the catch (a missing name) |
| Sketch.ReadEntries | src/com/michaelRunzler/TPG5/Sketch/SketchMain.java:443-445 | the read loop yields ReadResult: the entries to sort, or the first failure |
| Sketch.ReadStop | src/com/michaelRunzler/TPG5/Sketch/SketchMain.java:444 | the first position where the read loop fails: every earlier score parses and has a name; at that position the score does not parse or the names have run out |
| Sketch.ReadResult | src/com/michaelRunzler/TPG5/Sketch/SketchMain.java:443-458 | entries iff every score parses and has a name; a missing name (the array index error, not caught) iff the names run out before any score fails to parse; a bad number (caught) iff some score fails to parse with every earlier one parsed and named |
| Sketch.WriteBack | src/com/michaelRunzler/TPG5/Sketch/SketchMain.java:452-455 | the scores become the sorted entries from the top, the names likewise at the end of their list |

## Left out

- Drawing itself (Processing calls, colours of individual shapes, text layout, particle effects): render methods are modelled by the list of items they produce.
- Floating point: every `float`/`double` is an exact `real`, so rounding is not modelled; `Score.TruncatedScore` compares exact quotients where the source compares `(float) score / 10^i > 1.0`.
- Integer width: Java `int`/`long` overflow of scores, counters and frame numbers is not modelled (unbounded integers).
- Physics.PhysEngine.Tick: the listener interface and logging are left out; listener calls are recorded as `Contact` values in a log, and the log line of the screen-edge event that prints "RIGHT" for the Y axis is not modelled.
- Physics.PhysEngine.Tick: the model requires every simulated body to have a box of positive width and height (`Sized`), and so do `ResolveAll`, `Resolve` and the narrow-phase members; point bodies are left out because the source divides the overlap by the box's width and height for touching pairs (PhysEngine.java:243-244), and a zero-size body would give NaN or infinity there, which exact reals do not represent.
- Collision.Reflections: follows the code as written; for two negative velocities the faster body keeps its direction (`NegativeFasterKeepsDirection`), unlike the rule stated in the comment at PhysEngine.java:345-347, and the source itself marks same-sign handling as unfinished (line 339).
- Bodies.Energy: `getEnergy` has no caller in the source; the model states what its formula computes, and `EnergyNotKinetic` shows that the kinetic energy promised by its comment does not hold.
- Physics.PhysEngine.Tick: the two collision registers and the `c == p` test key bodies by their index in the simulated list, where the source keys them by `PhysObject` identity (PhysEngine.java:31-32, 75-76, 224); the two agree only while no object is in the list twice, which the sketch's setup keeps by adding each body once (SketchMain.java:134, 156). A body added twice is not modelled.
- Physics.PhysEngine.DynamicGravity: the source method has an empty body, so the model changes nothing.
- Trail: the trail is a `HashMap` keyed by the outer square's `RenderObject` (object identity, GamePhysObject.java:30) in the source; the model keeps the pairs as a list in insertion order, so the iteration order of the map is not modelled.
- Physics.PhysEngine.ScanAll: the `checked` array of dynamicCollision is local and never shared, so it is a sequence updated by assignment.
- Sketch.SketchMain.SetScene: `physics.reset()` is called on the engine but `PhysEngine` does not define it, so it is not part of this model; the trails are cleared by `Trail.Appearance.ClearTrail`, which is not called from here.
- Sketch.SketchMain.ReleaseAll: the walk over the key set, sending one synthetic release per key, is one map update; the release events are not passed on to the menus.
- Sketch.SketchMain.HighScoreCalc: a stored score without a stored name raises an `ArrayIndexOutOfBoundsException` that the catch at SketchMain.java:458 does not handle; the model returns `escaped == true` with the table unchanged, and what happens to the exception after `highScoreCalc` is not modelled. The name dialog is the `name` parameter, and the final refresh of the statistics display is `Stats.StatsHud.UpdateStatsFromCfg`, which is not called from here.
- Sketch.SketchMain.Track: the direction is passed in as a unit vector; the normalisation of the difference vector is not modelled.
- The sketch's draw loop (menu screens, AI boosts, death detection), its mouse and key dispatch to the UI engine and its setup are not modelled; the key handlers are modelled without the menu dispatch.
- Stats.StatsHud.constructor: the taunt loop would never end if every draw equalled the first; the model requires a draw that differs. Its contract states only the counters and the taunts, not the configuration values read afterwards (see `UpdateStatsFromCfg`).
- I18n.Dictionary.GetString: a locale that does not exist is a null dereference in the source; the model requires the locale.
- Text rendering of `StatsHUD` (its `render` method) is not modelled beyond the values it displays; in particular the choice of which taunt to show (session deaths of 25 or more at StatsHUD.java:130, total deaths of 200 or more at StatsHUD.java:136) is not modelled.
