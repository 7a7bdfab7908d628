/** Pointer picking of src/agent.rs: on a fresh left-button press, turn the
    cursor into a world point and add every agent whose pick box contains it
    to the selection list, each agent at most once. */
module Picking {
  import opened Scene

  /** Side of the square pick box around an agent, in world units. */
  const PICK_SIZE: real := 300.0

  /** What the picker reads of a window: the cursor position in pixels when
      the cursor is inside it, and its size in pixels. */
  datatype Window = Window(cursor: Option<Vec2>, width: real, height: real)

  // ---------------------------------------------------------------------
  // Device-normalised coordinates

  /** Pixels to device-normalised coordinates: `(p / size) * 2 - 1` per axis. */
  function Ndc(screen: Vec2, size: Vec2): Vec2
    requires size.x > 0.0 && size.y > 0.0
  {
    Vec2(screen.x / size.x * 2.0 - 1.0, screen.y / size.y * 2.0 - 1.0)
  }

  /** Device-normalised coordinates back to pixels. */
  function ScreenOf(ndc: Vec2, size: Vec2): Vec2
  {
    Vec2((ndc.x + 1.0) / 2.0 * size.x, (ndc.y + 1.0) / 2.0 * size.y)
  }

  /** The round trip through `ScreenOf` recovers the pixel position. */
  lemma ScreenOfNdc(screen: Vec2, size: Vec2)
    requires size.x > 0.0 && size.y > 0.0
    ensures ScreenOf(Ndc(screen, size), size) == screen
  {
  }

  /** The other half of the round trip: `Ndc` undoes `ScreenOf`. */
  lemma NdcOfScreen(ndc: Vec2, size: Vec2)
    requires size.x > 0.0 && size.y > 0.0
    ensures Ndc(ScreenOf(ndc, size), size) == ndc
  {
  }

  /** Pixel 0 maps to -1, pixel `size` to +1 and the window centre to 0. */
  lemma NdcLandmarks(size: Vec2)
    requires size.x > 0.0 && size.y > 0.0
    ensures Ndc(ORIGIN, size) == Vec2(-1.0, -1.0)
    ensures Ndc(size, size) == Vec2(1.0, 1.0)
    ensures Ndc(Vec2(size.x / 2.0, size.y / 2.0), size) == ORIGIN
  {
    assert size.x / size.x == 1.0 && size.y / size.y == 1.0;
    assert (size.x / 2.0) / size.x == 0.5 && (size.y / 2.0) / size.y == 0.5;
  }

  /** A pixel inside the window lands in [-1, 1] on both axes, and the map is
      monotone along each axis. */
  lemma NdcRange(screen: Vec2, other: Vec2, size: Vec2)
    requires size.x > 0.0 && size.y > 0.0
    requires 0.0 <= screen.x <= size.x && 0.0 <= screen.y <= size.y
    ensures -1.0 <= Ndc(screen, size).x <= 1.0 && -1.0 <= Ndc(screen, size).y <= 1.0
    ensures screen.x <= other.x ==> Ndc(screen, size).x <= Ndc(other, size).x
    ensures screen.y <= other.y ==> Ndc(screen, size).y <= Ndc(other, size).y
  {
    assert screen.x / size.x <= 1.0 && screen.y / size.y <= 1.0;
    assert screen.x <= other.x ==> screen.x / size.x <= other.x / size.x;
    assert screen.y <= other.y ==> screen.y / size.y <= other.y / size.y;
  }

  // ---------------------------------------------------------------------
  // The pick box

  /** The world point lies in the closed PICK_SIZE x PICK_SIZE box centred on
      the agent. */
  predicate InPickBox(agentPos: Vec2, world: Vec2): (r: bool)
    ensures r <==> Abs(world.x - agentPos.x) <= 150.0 && Abs(world.y - agentPos.y) <= 150.0
  {
    && world.x >= agentPos.x - PICK_SIZE / 2.0
    && world.x <= agentPos.x + PICK_SIZE / 2.0
    && world.y >= agentPos.y - PICK_SIZE / 2.0
    && world.y <= agentPos.y + PICK_SIZE / 2.0
  }

  /** The box reaches 150 world units from the agent on each side, edges
      included, and no further. */
  lemma PickBoxEdges(agentPos: Vec2, eps: real)
    requires eps > 0.0
    ensures InPickBox(agentPos, Vec2(agentPos.x + 150.0, agentPos.y - 150.0))
    ensures InPickBox(agentPos, Vec2(agentPos.x - 150.0, agentPos.y + 150.0))
    ensures !InPickBox(agentPos, Vec2(agentPos.x + 150.0 + eps, agentPos.y))
    ensures !InPickBox(agentPos, Vec2(agentPos.x - 150.0 - eps, agentPos.y))
    ensures !InPickBox(agentPos, Vec2(agentPos.x, agentPos.y + 150.0 + eps))
    ensures !InPickBox(agentPos, Vec2(agentPos.x, agentPos.y - 150.0 - eps))
  {
  }

  // ---------------------------------------------------------------------
  // The selection step

  /** The selection list after testing `agents` in query order: an agent
      whose box contains `world` is appended unless already listed. */
  function Select(sel: seq<Entity>, world: Vec2, agents: seq<AgentEntry>): (r: seq<Entity>)
    ensures sel <= r
  {
    if agents == [] then sel
    else
      var s := Select(sel, world, agents[..|agents| - 1]);
      var last := agents[|agents| - 1];
      if InPickBox(last.pos, world) && last.id !in s then s + [last.id] else s
  }

  /** The ids of the agents whose box contains `world`, in query order. */
  function HitIds(world: Vec2, agents: seq<AgentEntry>): seq<Entity>
  {
    if agents == [] then []
    else
      var last := agents[|agents| - 1];
      HitIds(world, agents[..|agents| - 1]) + (if InPickBox(last.pos, world) then [last.id] else [])
  }

  /** After a click the list holds what it held before and every agent whose
      box contains the point, overlapping boxes included, and nothing else. */
  lemma {:induction false} SelectMembers(sel: seq<Entity>, world: Vec2, agents: seq<AgentEntry>, x: Entity)
    ensures x in Select(sel, world, agents)
        <==> x in sel || exists j :: 0 <= j < |agents| && agents[j].id == x && InPickBox(agents[j].pos, world)
  {
    if agents != [] {
      var n := |agents| - 1;
      var front := agents[..n];
      SelectMembers(sel, world, front, x);
      assert forall j :: 0 <= j < n ==> front[j] == agents[j];
      if x !in sel && exists j :: 0 <= j < |agents| && agents[j].id == x && InPickBox(agents[j].pos, world) {
        var j :| 0 <= j < |agents| && agents[j].id == x && InPickBox(agents[j].pos, world);
        if j < n {
          assert front[j].id == x && InPickBox(front[j].pos, world);
        }
      }
    }
  }

  /** Idempotent insert: without duplicates before a click, none after. */
  lemma {:induction false} SelectNoDuplicates(sel: seq<Entity>, world: Vec2, agents: seq<AgentEntry>)
    requires NoDuplicates(sel)
    ensures NoDuplicates(Select(sel, world, agents))
  {
    if agents != [] {
      SelectNoDuplicates(sel, world, agents[..|agents| - 1]);
    }
  }

  /** A click changes nothing when every agent it hits is already listed. */
  lemma {:induction false} SelectAbsorbed(sel: seq<Entity>, world: Vec2, agents: seq<AgentEntry>)
    requires forall j :: 0 <= j < |agents| && InPickBox(agents[j].pos, world) ==> agents[j].id in sel
    ensures Select(sel, world, agents) == sel
  {
    if agents != [] {
      var front := agents[..|agents| - 1];
      assert forall j :: 0 <= j < |front| ==> front[j] == agents[j];
      SelectAbsorbed(sel, world, front);
    }
  }

  /** Clicking the same point a second time adds nothing. */
  lemma SelectIdempotent(sel: seq<Entity>, world: Vec2, agents: seq<AgentEntry>)
    ensures Select(Select(sel, world, agents), world, agents) == Select(sel, world, agents)
  {
    var once := Select(sel, world, agents);
    forall j | 0 <= j < |agents| && InPickBox(agents[j].pos, world) ensures agents[j].id in once {
      SelectMembers(sel, world, agents, agents[j].id);
    }
    SelectAbsorbed(once, world, agents);
  }

  /** The ids of `ids` that are not in `sel`, in their order. */
  function Fresh(ids: seq<Entity>, sel: seq<Entity>): seq<Entity>
  {
    if ids == [] then []
    else
      var last := ids[|ids| - 1];
      Fresh(ids[..|ids| - 1], sel) + (if last in sel then [] else [last])
  }

  /** `Fresh` unfolds at the end of its input. */
  lemma FreshSnoc(ids: seq<Entity>, x: Entity, sel: seq<Entity>)
    ensures Fresh(ids + [x], sel) == Fresh(ids, sel) + (if x in sel then [] else [x])
  {
    assert (ids + [x])[..|ids|] == ids;
  }

  /** One agent appended to the query extends the order statement, provided
      the agent's entity is listed after the front exactly when it was before. */
  lemma SelectAppendsHitsStep(sel: seq<Entity>, world: Vec2, agents: seq<AgentEntry>)
    requires agents != []
    requires Select(sel, world, agents[..|agents| - 1]) == sel + Fresh(HitIds(world, agents[..|agents| - 1]), sel)
    requires agents[|agents| - 1].id in Select(sel, world, agents[..|agents| - 1]) <==> agents[|agents| - 1].id in sel
    ensures Select(sel, world, agents) == sel + Fresh(HitIds(world, agents), sel)
  {
    var last := agents[|agents| - 1];
    var front := agents[..|agents| - 1];
    var hits := HitIds(world, front);
    var added := Fresh(hits, sel);
    if !InPickBox(last.pos, world) {
      assert HitIds(world, agents) == hits by {
        assert hits + [] == hits;
      }
    } else if last.id in sel {
      assert Fresh(HitIds(world, agents), sel) == added by {
        assert HitIds(world, agents) == hits + [last.id];
        FreshSnoc(hits, last.id, sel);
        assert added + [] == added;
      }
    } else {
      assert Fresh(HitIds(world, agents), sel) == added + [last.id] by {
        assert HitIds(world, agents) == hits + [last.id];
        FreshSnoc(hits, last.id, sel);
      }
      assert (sel + added) + [last.id] == sel + (added + [last.id]);
    }
  }

  /** Order: when the query repeats no entity, the click appends exactly the
      hit agents that were not listed yet, in query order. */
  lemma {:induction false} SelectAppendsHits(sel: seq<Entity>, world: Vec2, agents: seq<AgentEntry>)
    requires DistinctAgents(agents)
    ensures Select(sel, world, agents) == sel + Fresh(HitIds(world, agents), sel)
  {
    if agents != [] {
      var n := |agents| - 1;
      var front := agents[..n];
      assert forall j :: 0 <= j < n ==> front[j] == agents[j];
      assert DistinctAgents(front);
      SelectAppendsHits(sel, world, front);
      SelectMembers(sel, world, front, agents[n].id);
      SelectAppendsHitsStep(sel, world, agents);
    }
  }

  // ---------------------------------------------------------------------
  // One call of `update_agent`

  /** The selection list after one call: the step runs only on a press edge
      with the cursor inside both the primary window and the camera's target
      window. `toWorld` stands for the camera's un-projection. */
  function Click(sel: seq<Entity>, justPressed: bool, primary: Window, target: Window,
                 toWorld: Vec2 -> Vec2, agents: seq<AgentEntry>): (r: seq<Entity>)
    requires target.cursor.Some? ==> target.width > 0.0 && target.height > 0.0
    ensures sel <= r
    ensures !justPressed || primary.cursor.None? || target.cursor.None? ==> r == sel
  {
    if justPressed && primary.cursor.Some? && target.cursor.Some? then
      Select(sel, toWorld(Ndc(target.cursor.value, Vec2(target.width, target.height))), agents)
    else
      sel
  }

  /** Without a press edge or a cursor the list is unchanged; otherwise the
      old list is a prefix, duplicates are never introduced, and a repeated
      click adds nothing. */
  lemma ClickProperties(sel: seq<Entity>, justPressed: bool, primary: Window, target: Window,
                        toWorld: Vec2 -> Vec2, agents: seq<AgentEntry>)
    requires target.cursor.Some? ==> target.width > 0.0 && target.height > 0.0
    ensures !justPressed || primary.cursor.None? || target.cursor.None?
      ==> Click(sel, justPressed, primary, target, toWorld, agents) == sel
    ensures sel <= Click(sel, justPressed, primary, target, toWorld, agents)
    ensures NoDuplicates(sel) ==> NoDuplicates(Click(sel, justPressed, primary, target, toWorld, agents))
    ensures var once := Click(sel, justPressed, primary, target, toWorld, agents);
      Click(once, justPressed, primary, target, toWorld, agents) == once
  {
    if justPressed && primary.cursor.Some? && target.cursor.Some? {
      var world := toWorld(Ndc(target.cursor.value, Vec2(target.width, target.height)));
      SelectIdempotent(sel, world, agents);
      if NoDuplicates(sel) {
        SelectNoDuplicates(sel, world, agents);
      }
    }
  }

  /** An unrotated, unshifted orthographic camera whose visible world is
      exactly an 800 x 600 window. */
  function IdentityCamera(ndc: Vec2): Vec2
  {
    Vec2(ndc.x * 400.0, ndc.y * 300.0)
  }

  /** Pixel (400, 300) of an 800 x 600 window is its centre: NDC (0, 0), and
      world (0, 0) through that camera. */
  lemma CentreClickResolves()
    ensures Ndc(Vec2(400.0, 300.0), Vec2(800.0, 600.0)) == ORIGIN
    ensures IdentityCamera(Ndc(Vec2(400.0, 300.0), Vec2(800.0, 600.0))) == ORIGIN
  {
    NdcLandmarks(Vec2(800.0, 600.0));
  }

  /** An 800 x 600 window with the cursor at its centre. */
  const CENTRED_WINDOW: Window := Window(Some(Vec2(400.0, 300.0)), 800.0, 600.0)

  /** A click there, from an empty selection, selects an agent standing at
      the origin. */
  lemma ClickScenario(a: Entity)
    ensures Click([], true, CENTRED_WINDOW, CENTRED_WINDOW, IdentityCamera, [AgentEntry(a, ORIGIN)]) == [a]
  {
    var agents := [AgentEntry(a, ORIGIN)];
    assert Click([], true, CENTRED_WINDOW, CENTRED_WINDOW, IdentityCamera, agents) == Select([], ORIGIN, agents) by {
      assert Ndc(Vec2(400.0, 300.0), Vec2(800.0, 600.0)) == ORIGIN;
    }
    assert Select([], ORIGIN, agents) == [a] by {
      assert agents[..0] == [];
      assert InPickBox(ORIGIN, ORIGIN);
      assert Select([], ORIGIN, agents[..0]) == [];
    }
  }

  /** Clicking the same spot again leaves that selection as it is. */
  lemma ClickScenarioRepeated(a: Entity)
    ensures Click([a], true, CENTRED_WINDOW, CENTRED_WINDOW, IdentityCamera, [AgentEntry(a, ORIGIN)]) == [a]
  {
    var agents := [AgentEntry(a, ORIGIN)];
    assert Click([a], true, CENTRED_WINDOW, CENTRED_WINDOW, IdentityCamera, agents) == Select([a], ORIGIN, agents) by {
      assert Ndc(Vec2(400.0, 300.0), Vec2(800.0, 600.0)) == ORIGIN;
    }
    assert Select([a], ORIGIN, agents) == [a] by {
      assert agents[..0] == [];
      assert Select([a], ORIGIN, agents[..0]) == [a];
    }
  }

  // ---------------------------------------------------------------------
  // The UI state, updated in place

  /** The `agents` list of the `UiStates` resource: the selection. */
  class UiStates {
    var agents: seq<Entity>

    /** The loop over the agent query: `contains` then `push`. */
    method SelectAt(world: Vec2, query: seq<AgentEntry>)
      modifies this
      ensures agents == Select(old(agents), world, query)
    {
      assert query[..0] == [];
      for i := 0 to |query|
        invariant agents == Select(old(agents), world, query[..i])
      {
        assert query[..i + 1][..i] == query[..i];
        var agent := query[i];
        if InPickBox(agent.pos, world) {
          if agent.id !in agents {
            agents := agents + [agent.id];
          }
        }
      }
      assert query[..|query|] == query;
    }

    /** `update_agent`, with the window lookups and the camera given. */
    method UpdateAgent(justPressed: bool, primary: Window, target: Window,
                       toWorld: Vec2 -> Vec2, query: seq<AgentEntry>)
      requires target.cursor.Some? ==> target.width > 0.0 && target.height > 0.0
      modifies this
      ensures agents == Click(old(agents), justPressed, primary, target, toWorld, query)
    {
      if justPressed {
        if primary.cursor.Some? {
          if target.cursor.Some? {
            var windowSize := Vec2(target.width, target.height);
            var ndc := Ndc(target.cursor.value, windowSize);
            var world := toWorld(ndc);
            SelectAt(world, query);
          }
        }
      }
    }
  }
}
