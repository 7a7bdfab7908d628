# Zone membership and pointer picking, modelled in Dafny

This project models two per-tick systems of a small Bevy simulation of agents and zones.

- **Zone–agent membership tracker** (`src/zone.rs`, module `Zones`, file `zone.dfy`). It models the `AgentZoneMapping` resource, a map from zone entity to a list of agent entities. The resource is the class `AgentZoneMapping`; the Rust struct's `map` field is its field `mapping`. `UpdateZones` does the three steps of `update_zones`, one loop each:
  1. insert an empty list for every live zone that has no key;
  2. walking a snapshot of the keys, remove every key whose zone is gone;
  3. for every zone and every agent, push the agent when the containment test holds.

  The method is proved to produce `Pass(old map, zones, agents)`. The lemmas about `Pass` state what the source promises: the keys are exactly the live zones, old lists are kept as prefixes, the suffix appended by one pass is exactly the hits in agent order, and so on. `SpawnTestZone` models the map insert of `spawn_test_zone`.
- **Pointer picking** (`src/agent.rs`, module `Picking`, file `agent.dfy`). It covers:
  - the device-normalised-coordinate formula `(p / size) * 2 - 1`, the function `Ndc`; its properties (inverse of the pixel map `ScreenOf`, where 0, `size` and the centre go, range and monotonicity) are separate lemmas;
  - the closed 300 × 300 pick box;
  - the loop that appends each hit agent to the selection list unless it is already there. This is `UiStates.SelectAt`, proved against the function `Select`.

  `UpdateAgent` adds the gating: a press edge, and a cursor in the primary window and in the camera's target window.

Shared types live in module `Scene` (`scene.dfy`). Entities are `nat` handles. Positions are `real`. Query results are sequences of rows, and each row is joined with its entity's transform.

Two points where the code behaves differently from what one might expect; the model follows the code:

- **Lists are never cleared.** One might expect every list to be rebuilt from scratch on each tick. The code only inserts an empty list for a missing key and then pushes. An agent that stays inside a zone is appended again on every pass. `Pass` models the code. `Rebuild` is the from-scratch variant. `PassVersusRebuild` says exactly when the two agree: every live zone that already had a key had an empty list.
- **The containment test is symmetric.** The literal test puts the zone's position in a box centred on the agent. With the same half-extents on both sides this is the same as putting the agent in a box centred on the zone, so it differs from "agent inside the zone" only by the axis swap. `ContainsIsCentredDistance` proves that the literal test is the same as "agent in the box centred on the zone". In that test `height` bounds x and `width` bounds y (`HeightGovernsX`).

## Model

| member | source | states |
|---|---|---|
| `Zones.AgentZoneMapping.constructor` | src/zone.rs:29-32 | the default resource holds the empty map |
| `Zones.AgentZoneMapping.InsertMissing` | src/zone.rs:47-49 | keys become the old keys plus every live zone; old keys keep their lists and new keys get the empty list |
| `Zones.AgentZoneMapping.RemoveStale` | src/zone.rs:51-56 | walking a snapshot of the keys, the keys become the old keys that are live zones; surviving lists are unchanged |
| `Zones.AgentZoneMapping.PushHits` | src/zone.rs:59-78 | for one zone, the list gets exactly `Hits` appended, in agent order; every other entry is unchanged |
| `Zones.AgentZoneMapping.AppendContained` | src/zone.rs:58-79 | when every iterated zone has a key (why `get_mut(..).unwrap()` cannot fail), no key is added or removed and each list gets its zone's hits appended |
| `Zones.AgentZoneMapping.UpdateZones` | src/zone.rs:34-80 | the map after the three steps is `Pass` of the old map; the reconciliation establishes the key precondition of step three |
| `Zones.AgentZoneMapping.SpawnTestZone` | src/zone.rs:82-110 | the new zone entity maps to the empty list, and every other key keeps its list; the spawned row is the 1000 × 1000 "TEST" zone at the origin |
| `Zones.RunScenario` | src/zone.rs:34-110 | on the resource: spawn the test zone, two ticks with one agent at the origin give `[a]` and then `[a, a]`, and a tick after the zone is gone leaves no key |
| `Zones.Contains` | src/zone.rs:62-70 | the literal test holds iff the zone and the agent are within `height / 2` of each other along x and within `width / 2` along y |
| `Zones.ZoneHits` | src/zone.rs:58-79 | what the rows of one zone entity push in one pass; a zone with no row in the query receives nothing |
| `Zones.Pass` | src/zone.rs:47-79 | the map after one pass of `update_zones` (each live zone's `Prior` list followed by its `ZoneHits`): its keys are exactly the live zones, so a stale key is dropped and a missing zone gains one |
| `Zones.Hits` | src/zone.rs:59-77 | one zone pushes at most one entry per agent row in a pass |
| `Zones.ContainsIsCentredDistance` | src/zone.rs:62-70 | the literal zone-in-agent-box test is the same as the agent-in-zone-box test: the agent lies within `height / 2` of the zone along x and within `width / 2` along y, so the test is symmetric |
| `Zones.HeightGovernsX` | src/zone.rs:62-63 | a tall, narrow zone contains an agent 400 units away along x but not one 400 units away along y, and the same zone with height and width swapped rejects the first agent |
| `Zones.ContainsEdgeInclusive` | src/zone.rs:67-70 | bounds are closed on all four sides: an agent exactly on an edge counts, and one any distance beyond it does not |
| `Zones.HitsMembers` | src/zone.rs:59-77 | an entity is among a zone's hits iff some agent row with that entity satisfies the test |
| `Zones.HitsConcat` | src/zone.rs:59-76 | hits follow agent order: the hits of a concatenated query are the concatenated hits |
| `Zones.HitsNoDuplicates` | src/zone.rs:59-77 | each agent is tested once per zone, so hits repeat no agent when the query repeats none |
| `Zones.HitsNone` | src/zone.rs:67-77 | when no agent satisfies the test, the zone pushes nothing |
| `Zones.ZoneHitsOfRow` | src/zone.rs:58-79 | with one row per zone entity, what a zone receives in a pass is the hits of its own row |
| `Zones.PassKeys` | src/zone.rs:47-56 | after a pass an entity is a key iff it is a live zone, so a stale key is removed and a missing zone is added |
| `Zones.PassEntry` | src/zone.rs:47-79 | a live zone's new list is its earlier list (empty when new) followed by exactly the hits of its row, so the old list is a prefix |
| `Zones.PassKeepsQuietZone` | src/zone.rs:58-79 | a zone whose test fails for every agent keeps its entry unchanged |
| `Zones.PassKeepsResidue` | src/zone.rs:47-49 | lists are never cleared: an entry from an earlier pass survives, even for an agent that has left |
| `Zones.PassTwice` | src/zone.rs:47-79 | two passes over the same scene append the hits twice, so an agent that stays inside gains one entry per pass |
| `Zones.PassVersusRebuild` | src/zone.rs:47-79 | the pass equals a from-scratch rebuild iff every live zone that already had a key had an empty list |
| `Zones.RebuildMembers` | src/zone.rs:58-79 | a rebuild would list exactly the agents that satisfy the test now |
| `Zones.PassOfSteps` | src/zone.rs:47-79 | the three steps compose to one pass: reconciled keys that are exactly the live zones, holding their `Prior` lists, followed by step three appending `ZoneHits` to each list, give `Pass` of the original map |
| `Zones.WorkedScenario` | src/zone.rs:47-110 | test zone and one agent at the origin: `[a]` after one pass, `[a, a]` after two, and no key once the zone is gone |
| `Picking.ScreenOfNdc` | src/agent.rs:68 | mapping the normalised point back to pixels recovers the pixel position |
| `Picking.NdcOfScreen` | src/agent.rs:68 | the normalisation undoes the pixel map, so the two are inverse for a positive window size |
| `Picking.NdcLandmarks` | src/agent.rs:67-68 | pixel 0 maps to -1, pixel `size` maps to +1 and the window centre maps to 0 |
| `Picking.NdcRange` | src/agent.rs:67-68 | a pixel inside the window lands in [-1, 1] on both axes, and the map is monotone per axis |
| `Picking.InPickBox` | src/agent.rs:90-99 | the test holds iff the world point is within 150 units (half of 300) of the agent along both x and y |
| `Picking.PickBoxEdges` | src/agent.rs:90-99 | the pick box reaches 150 units from the agent on each side, edges included, and no further |
| `Picking.Select` | src/agent.rs:82-106 | the old selection list is a prefix of the new one |
| `Picking.SelectMembers` | src/agent.rs:82-106 | after a click an entity is listed iff it was listed before or some agent with that entity has the point in its box, overlapping boxes included |
| `Picking.SelectNoDuplicates` | src/agent.rs:101-103 | a selection list without duplicates has none after a click |
| `Picking.SelectAbsorbed` | src/agent.rs:101-103 | a click whose hit agents are all listed changes nothing |
| `Picking.SelectIdempotent` | src/agent.rs:82-106 | clicking the same point twice adds nothing the second time |
| `Picking.SelectAppendsHits` | src/agent.rs:82-106 | for a query without repeated entities, a click appends exactly the hit agents that were not already listed, in query order, and nothing else |
| `Picking.UiStates.SelectAt` | src/agent.rs:82-106 | the loop with `contains` then `push` leaves the list equal to `Select` of the old list |
| `Picking.UiStates.UpdateAgent` | src/agent.rs:38-110 | the list after one call is `Click` of the old list |
| `Picking.Click` | src/agent.rs:46-106 | the old list is a prefix of the new one; without a press edge, a cursor in the primary window or a cursor in the target window the list is unchanged |
| `Picking.ClickProperties` | src/agent.rs:46-106 | without a press edge or a cursor the list is unchanged; otherwise the old list is a prefix, no duplicate is introduced, and a repeated click adds nothing |
| `Picking.CentreClickResolves` | src/agent.rs:63-78 | pixel (400, 300) of an 800 × 600 window is NDC (0, 0), and world (0, 0) through an identity window camera |
| `Picking.ClickScenario` | src/agent.rs:46-106 | that click, from an empty selection, selects an agent standing at the origin |
| `Picking.ClickScenarioRepeated` | src/agent.rs:101-103 | clicking the same spot again leaves `[a]` as it is |

## Left out

- The un-projection through `camera_transform.compute_matrix() * camera.projection_matrix.inverse()` and `project_point3` (src/agent.rs:71-78) is foreign matrix code on f32. It is the function parameter `toWorld`, applied to the normalised point.
- `camera_query.single()`, the window lookups and their panics (src/agent.rs:45, 53-60) are engine state. The primary window and the camera's target window are given as `Window` values.
- `Ndc` requires a positive window size. A zero-size window (an f32 division by zero) is not modelled. The requires applies only when the target window reports a cursor.
- The `transform_q.get(..).unwrap()` lookups (src/zone.rs:44, 60) become positions joined to each query row. The panic for a missing transform is not modelled.
- All `println!` / `eprintln!` output is I/O.
- Entity spawning, sprites, textures, shape building and the random fill colour (src/agent.rs:25-36; src/zone.rs:88-108) are rendering, assets and randomness. `SpawnTestZone` receives the new entity as a parameter.
- Plugin registration and scheduling (src/agent.rs:10-17; src/zone.rs:12-20) and src/lib.rs are ECS wiring with no logic.
- f32 rounding: coordinates are `real`, since the core only halves, divides by the window size and compares.
- The unused `lifespan` field, the agent name and the `Sprite` component (src/agent.rs:22, 86) play no part in the logic.
- `UiStates` is defined in src/windows.rs, which is not part of this model. Only its `agents` list is modelled. Rust's `Vec::contains` is Dafny's `in`.
- The order of `HashMap` iteration is not modelled. `RemoveStale` picks the next key nondeterministically, and its contract holds for every order.
- The uniqueness of entities within a query is assumed only by the lemmas that need it (`DistinctZones`, `DistinctAgents`). `UpdateZones` accepts any rows.
