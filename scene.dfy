/** Types shared by the zone tracker and the pointer picker. */
module Scene {

  /** An entity handle of the ECS: opaque, compared only for equality. */
  type Entity = nat

  /** A 2D world or screen position. f32 is modelled as `real`: the core only
      halves, divides by a window size and compares. */
  datatype Vec2 = Vec2(x: real, y: real)

  /** The default transform's translation. */
  const ORIGIN: Vec2 := Vec2(0.0, 0.0)

  function Abs(r: real): real { if r < 0.0 then -r else r }

  datatype Option<T> = None | Some(value: T)

  /** One row of an agent query, joined with the agent's transform. */
  datatype AgentEntry = AgentEntry(id: Entity, pos: Vec2)

  /** The ECS never yields one entity twice from a query. */
  predicate DistinctAgents(agents: seq<AgentEntry>)
  {
    forall i, j :: 0 <= i < j < |agents| ==> agents[i].id != agents[j].id
  }

  predicate NoDuplicates(s: seq<Entity>)
  {
    forall i, j :: 0 <= i < j < |s| ==> s[i] != s[j]
  }
}
