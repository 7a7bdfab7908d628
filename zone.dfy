/** The zone-agent membership tracker of src/zone.rs: a map from every live
    zone to the agents found inside it, updated in place once per tick. */
module Zones {
  import opened Scene

  /** The `Zone` component. Only `height` and `width` take part in the logic. */
  datatype Zone = Zone(name: string, height: real, width: real)

  /** One row of the zone query, joined with the zone's transform. */
  datatype ZoneEntry = ZoneEntry(id: Entity, zone: Zone, pos: Vec2)

  /** The contents of `AgentZoneMapping.map`. */
  type Mapping = map<Entity, seq<Entity>>

  /** The zone that `spawn_test_zone` creates, at the default transform. */
  const TEST_ZONE: Zone := Zone("TEST", 1000.0, 1000.0)

  predicate DistinctZones(zones: seq<ZoneEntry>)
  {
    forall i, j :: 0 <= i < j < |zones| ==> zones[i].id != zones[j].id
  }

  /** The list of live zone entities collected before the three steps. */
  function ZoneIds(zones: seq<ZoneEntry>): seq<Entity>
  {
    seq(|zones|, i requires 0 <= i < |zones| => zones[i].id)
  }

  function LiveZones(zones: seq<ZoneEntry>): set<Entity>
  {
    set z | z in ZoneIds(zones)
  }

  /** The containment test, literally: the ZONE's position lies in the closed
      box centred on the AGENT whose x half-extent is the zone's height / 2 and
      whose y half-extent is its width / 2. */
  predicate Contains(zone: Zone, zonePos: Vec2, agentPos: Vec2): (r: bool)
    ensures r <==> Abs(zonePos.x - agentPos.x) <= zone.height / 2.0 && Abs(zonePos.y - agentPos.y) <= zone.width / 2.0
  {
    && zonePos.x >= agentPos.x - zone.height / 2.0
    && zonePos.x <= agentPos.x + zone.height / 2.0
    && zonePos.y >= agentPos.y - zone.width / 2.0
    && zonePos.y <= agentPos.y + zone.width / 2.0
  }

  /** The agents one zone pushes in one pass, in agent-query order. */
  function Hits(zone: Zone, zonePos: Vec2, agents: seq<AgentEntry>): (r: seq<Entity>)
    ensures |r| <= |agents|
  {
    if agents == [] then []
    else
      var last := agents[|agents| - 1];
      Hits(zone, zonePos, agents[..|agents| - 1])
        + (if Contains(zone, zonePos, last.pos) then [last.id] else [])
  }

  /** The list a zone had before the pass, or the empty list `or_insert` gives. */
  function Prior(m: Mapping, z: Entity): seq<Entity>
  {
    if z in m then m[z] else []
  }

  /** What every row of the zone query with entity `z` pushes in one pass,
      rows taken in query order. A zone without a row receives nothing. */
  function ZoneHits(zones: seq<ZoneEntry>, z: Entity, agents: seq<AgentEntry>): (r: seq<Entity>)
    ensures (forall i :: 0 <= i < |zones| ==> zones[i].id != z) ==> r == []
  {
    if zones == [] then []
    else
      var last := zones[|zones| - 1];
      ZoneHits(zones[..|zones| - 1], z, agents)
        + (if last.id == z then Hits(last.zone, last.pos, agents) else [])
  }

  /** The map after one pass of `update_zones`: exactly the live zones are
      keys, and each keeps its earlier list with this pass's hits appended. */
  function Pass(m: Mapping, zones: seq<ZoneEntry>, agents: seq<AgentEntry>): (r: Mapping)
    ensures r.Keys == LiveZones(zones)
  {
    map z | z in LiveZones(zones) :: Prior(m, z) + ZoneHits(zones, z, agents)
  }

  /** A from-scratch variant that does not exist in the source: every live
      zone gets only this pass's hits. */
  function Rebuild(zones: seq<ZoneEntry>, agents: seq<AgentEntry>): Mapping
  {
    map z | z in LiveZones(zones) :: ZoneHits(zones, z, agents)
  }

  // ---------------------------------------------------------------------
  // The containment predicate

  /** The literal test is symmetric: the zone in the box centred on the agent
      is the same as the agent in the box centred on the zone, with the zone's
      height bounding x and its width bounding y. */
  lemma ContainsIsCentredDistance(zone: Zone, zonePos: Vec2, agentPos: Vec2)
    ensures Contains(zone, zonePos, agentPos)
        <==> (&& agentPos.x >= zonePos.x - zone.height / 2.0
              && agentPos.x <= zonePos.x + zone.height / 2.0
              && agentPos.y >= zonePos.y - zone.width / 2.0
              && agentPos.y <= zonePos.y + zone.width / 2.0)
  {
  }

  /** Height governs x and width governs y: a tall, narrow zone contains an
      agent that is far off along x, and the same zone with its height and
      width swapped does not. */
  lemma HeightGovernsX()
    ensures Contains(Zone("tall", 1000.0, 10.0), ORIGIN, Vec2(400.0, 0.0))
    ensures !Contains(Zone("wide", 10.0, 1000.0), ORIGIN, Vec2(400.0, 0.0))
    ensures !Contains(Zone("tall", 1000.0, 10.0), ORIGIN, Vec2(0.0, 400.0))
  {
  }

  /** The bounds are closed on all four sides: an agent exactly half a height
      away along x, or half a width away along y, still counts, and one any
      distance further does not. */
  lemma ContainsEdgeInclusive(zone: Zone, zonePos: Vec2, eps: real)
    requires zone.height >= 0.0 && zone.width >= 0.0 && eps > 0.0
    ensures Contains(zone, zonePos, Vec2(zonePos.x + zone.height / 2.0, zonePos.y - zone.width / 2.0))
    ensures Contains(zone, zonePos, Vec2(zonePos.x - zone.height / 2.0, zonePos.y + zone.width / 2.0))
    ensures !Contains(zone, zonePos, Vec2(zonePos.x + zone.height / 2.0 + eps, zonePos.y))
    ensures !Contains(zone, zonePos, Vec2(zonePos.x - zone.height / 2.0 - eps, zonePos.y))
    ensures !Contains(zone, zonePos, Vec2(zonePos.x, zonePos.y + zone.width / 2.0 + eps))
    ensures !Contains(zone, zonePos, Vec2(zonePos.x, zonePos.y - zone.width / 2.0 - eps))
  {
  }

  // ---------------------------------------------------------------------
  // The hits of one zone

  /** An agent is among the hits exactly when some row of the query with that
      entity satisfies the predicate. */
  lemma {:induction false} HitsMembers(zone: Zone, zonePos: Vec2, agents: seq<AgentEntry>, x: Entity)
    ensures x in Hits(zone, zonePos, agents)
        <==> exists j :: 0 <= j < |agents| && agents[j].id == x && Contains(zone, zonePos, agents[j].pos)
  {
    if agents != [] {
      var n := |agents| - 1;
      var front := agents[..n];
      HitsMembers(zone, zonePos, front, x);
      if x in Hits(zone, zonePos, agents) {
        if x in Hits(zone, zonePos, front) {
          var j :| 0 <= j < |front| && front[j].id == x && Contains(zone, zonePos, front[j].pos);
          assert agents[j] == front[j];
        } else {
          assert agents[n].id == x && Contains(zone, zonePos, agents[n].pos);
        }
      } else {
        forall j | 0 <= j < |agents| && agents[j].id == x
          ensures !Contains(zone, zonePos, agents[j].pos)
        {
          if j < n {
            assert front[j] == agents[j];
          }
        }
      }
    }
  }

  /** Hits keep agent-query order: splitting the query splits the hits. */
  lemma {:induction false} HitsConcat(zone: Zone, zonePos: Vec2, front: seq<AgentEntry>, back: seq<AgentEntry>)
    ensures Hits(zone, zonePos, front + back) == Hits(zone, zonePos, front) + Hits(zone, zonePos, back)
  {
    if back == [] {
      assert front + back == front;
    } else {
      var n := |back| - 1;
      assert (front + back)[..|front + back| - 1] == front + back[..n];
      HitsConcat(zone, zonePos, front, back[..n]);
    }
  }

  /** Each agent is tested once per zone: a query without repeated entities
      gives hits without repeats. */
  lemma {:induction false} HitsNoDuplicates(zone: Zone, zonePos: Vec2, agents: seq<AgentEntry>)
    requires DistinctAgents(agents)
    ensures NoDuplicates(Hits(zone, zonePos, agents))
  {
    if agents != [] {
      var n := |agents| - 1;
      var front := agents[..n];
      assert DistinctAgents(front) by {
        forall i, j | 0 <= i < j < |front| ensures front[i].id != front[j].id {
          assert front[i] == agents[i] && front[j] == agents[j];
        }
      }
      HitsNoDuplicates(zone, zonePos, front);
      assert agents[n].id !in Hits(zone, zonePos, front) by {
        HitsMembers(zone, zonePos, front, agents[n].id);
        assert forall j :: 0 <= j < |front| ==> front[j].id == agents[j].id != agents[n].id;
      }
    }
  }

  /** When no agent satisfies the predicate, the zone pushes nothing. */
  lemma {:induction false} HitsNone(zone: Zone, zonePos: Vec2, agents: seq<AgentEntry>)
    requires forall j :: 0 <= j < |agents| ==> !Contains(zone, zonePos, agents[j].pos)
    ensures Hits(zone, zonePos, agents) == []
  {
    if agents != [] {
      var n := |agents| - 1;
      var front := agents[..n];
      assert forall j :: 0 <= j < |front| ==> front[j] == agents[j];
      HitsNone(zone, zonePos, front);
    }
  }

  // ---------------------------------------------------------------------
  // One pass over the map

  lemma ZoneIdsAt(zones: seq<ZoneEntry>, z: Entity)
    ensures z in LiveZones(zones) <==> exists i :: 0 <= i < |zones| && zones[i].id == z
  {
    if z in ZoneIds(zones) {
      var i :| 0 <= i < |ZoneIds(zones)| && ZoneIds(zones)[i] == z;
      assert zones[i].id == z;
    }
    if exists i :: 0 <= i < |zones| && zones[i].id == z {
      var i :| 0 <= i < |zones| && zones[i].id == z;
      assert ZoneIds(zones)[i] == z;
    }
  }

  /** With one row per zone entity, what a zone pushes is the hits of its row. */
  lemma {:induction false} ZoneHitsOfRow(zones: seq<ZoneEntry>, agents: seq<AgentEntry>, i: nat)
    requires DistinctZones(zones) && i < |zones|
    ensures ZoneHits(zones, zones[i].id, agents) == Hits(zones[i].zone, zones[i].pos, agents)
  {
    var n := |zones| - 1;
    var front := zones[..n];
    if i == n {
      assert forall k :: 0 <= k < |front| ==> front[k].id == zones[k].id != zones[i].id;
    } else {
      assert DistinctZones(front) by {
        forall a, b | 0 <= a < b < |front| ensures front[a].id != front[b].id {
          assert front[a] == zones[a] && front[b] == zones[b];
        }
      }
      assert front[i] == zones[i];
      ZoneHitsOfRow(front, agents, i);
    }
  }

  /** Key-set fidelity: after a pass the keys are exactly the zones of the
      query; missing ones were added and stale ones removed. */
  lemma PassKeys(m: Mapping, zones: seq<ZoneEntry>, agents: seq<AgentEntry>, z: Entity)
    ensures z in Pass(m, zones, agents) <==> exists i :: 0 <= i < |zones| && zones[i].id == z
    ensures z in m && z !in Pass(m, zones, agents) ==> forall i :: 0 <= i < |zones| ==> zones[i].id != z
  {
    ZoneIdsAt(zones, z);
  }

  /** The entry of a live zone: its earlier list (empty for a new zone)
      followed by exactly this pass's hits of its row. */
  lemma PassEntry(m: Mapping, zones: seq<ZoneEntry>, agents: seq<AgentEntry>, i: nat)
    requires DistinctZones(zones) && i < |zones|
    ensures zones[i].id in Pass(m, zones, agents)
    ensures Pass(m, zones, agents)[zones[i].id] == Prior(m, zones[i].id) + Hits(zones[i].zone, zones[i].pos, agents)
  {
    ZoneIdsAt(zones, zones[i].id);
    ZoneHitsOfRow(zones, agents, i);
  }

  /** A zone none of whose agents satisfies the predicate keeps its entry. */
  lemma PassKeepsQuietZone(m: Mapping, zones: seq<ZoneEntry>, agents: seq<AgentEntry>, i: nat)
    requires DistinctZones(zones) && i < |zones|
    requires forall j :: 0 <= j < |agents| ==> !Contains(zones[i].zone, zones[i].pos, agents[j].pos)
    ensures zones[i].id in Pass(m, zones, agents)
    ensures Pass(m, zones, agents)[zones[i].id] == Prior(m, zones[i].id)
  {
    PassEntry(m, zones, agents, i);
    HitsNone(zones[i].zone, zones[i].pos, agents);
  }

  /** Lists are never cleared: an entry of an earlier pass survives, even for
      an agent that has since left the zone. */
  lemma PassKeepsResidue(m: Mapping, zones: seq<ZoneEntry>, agents: seq<AgentEntry>, i: nat, x: Entity)
    requires DistinctZones(zones) && i < |zones|
    requires zones[i].id in m && x in m[zones[i].id]
    ensures zones[i].id in Pass(m, zones, agents)
    ensures x in Pass(m, zones, agents)[zones[i].id]
  {
    PassEntry(m, zones, agents, i);
    var after := Pass(m, zones, agents)[zones[i].id];
    var k :| 0 <= k < |m[zones[i].id]| && m[zones[i].id][k] == x;
    assert after[k] == x;
  }

  /** Two passes over the same scene push the same hits twice: an agent that
      stays inside gains one more entry per pass. */
  lemma PassTwice(m: Mapping, zones: seq<ZoneEntry>, agents: seq<AgentEntry>, i: nat)
    requires DistinctZones(zones) && i < |zones|
    ensures zones[i].id in Pass(Pass(m, zones, agents), zones, agents)
    ensures Pass(Pass(m, zones, agents), zones, agents)[zones[i].id]
      == Prior(m, zones[i].id) + Hits(zones[i].zone, zones[i].pos, agents) + Hits(zones[i].zone, zones[i].pos, agents)
  {
    PassEntry(m, zones, agents, i);
    PassEntry(Pass(m, zones, agents), zones, agents, i);
  }

  /** How the source's pass differs from a rebuild: the two agree exactly when
      every live zone that already had a key had an empty list. */
  lemma PassVersusRebuild(m: Mapping, zones: seq<ZoneEntry>, agents: seq<AgentEntry>)
    ensures Pass(m, zones, agents) == Rebuild(zones, agents)
        <==> forall z :: z in m && z in LiveZones(zones) ==> m[z] == []
  {
    var p, r := Pass(m, zones, agents), Rebuild(zones, agents);
    assert p.Keys == r.Keys;
    if forall z :: z in m && z in LiveZones(zones) ==> m[z] == [] {
      forall z | z in p ensures p[z] == r[z] {
        assert Prior(m, z) == [];
      }
    }
    if p == r {
      forall z | z in m && z in LiveZones(zones) ensures m[z] == [] {
        assert p[z] == m[z] + r[z];
        assert |p[z]| == |m[z]| + |r[z]|;
      }
    }
  }

  /** A rebuild leaves no stale residue: a zone lists exactly the agents that
      satisfy the predicate now. */
  lemma RebuildMembers(zones: seq<ZoneEntry>, agents: seq<AgentEntry>, i: nat, x: Entity)
    requires DistinctZones(zones) && i < |zones|
    ensures zones[i].id in Rebuild(zones, agents)
    ensures x in Rebuild(zones, agents)[zones[i].id]
        <==> exists j :: 0 <= j < |agents| && agents[j].id == x && Contains(zones[i].zone, zones[i].pos, agents[j].pos)
  {
    ZoneIdsAt(zones, zones[i].id);
    ZoneHitsOfRow(zones, agents, i);
    HitsMembers(zones[i].zone, zones[i].pos, agents, x);
  }

  /** The test zone at the origin and one agent at the origin: one pass from
      the freshly spawned entry gives [agent], a second gives [agent, agent],
      and once the zone is gone a third pass drops its key. */
  lemma WorkedScenario(z: Entity, a: Entity)
    ensures var zones := [ZoneEntry(z, TEST_ZONE, ORIGIN)];
      var agents := [AgentEntry(a, ORIGIN)];
      var m1 := Pass(map[z := []], zones, agents);
      var m2 := Pass(m1, zones, agents);
      && m1 == map[z := [a]]
      && m2 == map[z := [a, a]]
      && Pass(m2, [], agents) == map[]
  {
    var zones := [ZoneEntry(z, TEST_ZONE, ORIGIN)];
    var agents := [AgentEntry(a, ORIGIN)];
    assert LiveZones(zones) == {z} by {
      assert ZoneIds(zones) == [z];
    }
    assert ZoneHits(zones, z, agents) == [a] by {
      assert agents[..0] == [] && zones[..0] == [];
    }
    var m1 := Pass(map[z := []], zones, agents);
    assert m1 == map[z := [a]] by {
      assert m1.Keys == {z} && m1[z] == [] + [a];
      assert [] + [a] == [a];
    }
    var m2 := Pass(m1, zones, agents);
    assert m2 == map[z := [a, a]] by {
      assert m1[z] == [a];
      assert m2.Keys == {z} && m2[z] == [a] + [a];
      assert [a] + [a] == [a, a];
    }
    assert Pass(m2, [], agents) == map[] by {
      assert ZoneIds([]) == [];
      assert LiveZones([]) == {};
    }
  }

  /** The three steps compose to one pass: reconciling the keys yields the
      `Prior` lists, and step three appends `ZoneHits` to each of them. */
  lemma PassOfSteps(m: Mapping, reconciled: Mapping, after: Mapping, zones: seq<ZoneEntry>, agents: seq<AgentEntry>)
    requires reconciled.Keys == LiveZones(zones)
    requires forall z :: z in reconciled ==> reconciled[z] == Prior(m, z)
    requires after.Keys == reconciled.Keys
    requires forall z :: z in after ==> after[z] == reconciled[z] + ZoneHits(zones, z, agents)
    ensures after == Pass(m, zones, agents)
  {
    var expected := Pass(m, zones, agents);
    assert after.Keys == expected.Keys;
    forall z | z in after ensures after[z] == expected[z] {
      assert reconciled[z] == Prior(m, z);
    }
  }

  // ---------------------------------------------------------------------
  // The resource, updated in place

  /** The `AgentZoneMapping` resource. */
  class AgentZoneMapping {
    var mapping: Mapping

    /** `AgentZoneMapping::default()`. */
    constructor ()
      ensures mapping == map[]
    {
      mapping := map[];
    }

    /** Step one: an empty list for every live zone without a key; existing
        lists are left alone. */
    method InsertMissing(zoneList: seq<Entity>)
      modifies this
      ensures mapping.Keys == old(mapping).Keys + set z | z in zoneList
      ensures forall z :: z in mapping ==> mapping[z] == Prior(old(mapping), z)
    {
      for i := 0 to |zoneList|
        invariant mapping.Keys == old(mapping).Keys + set z | z in zoneList[..i]
        invariant forall z :: z in mapping ==> mapping[z] == Prior(old(mapping), z)
      {
        assert zoneList[..i + 1] == zoneList[..i] + [zoneList[i]];
        if zoneList[i] !in mapping {
          mapping := mapping[zoneList[i] := []];
        }
      }
      assert zoneList[..|zoneList|] == zoneList;
    }

    /** Step two: walking a snapshot of the keys, delete every key that is not
        a live zone. */
    method RemoveStale(zoneList: seq<Entity>)
      modifies this
      ensures mapping.Keys == old(mapping).Keys * set z | z in zoneList
      ensures forall z :: z in mapping ==> mapping[z] == old(mapping)[z]
    {
      var snapshot := mapping;
      var pending := snapshot.Keys;
      while pending != {}
        invariant pending <= snapshot.Keys
        invariant mapping.Keys == (snapshot.Keys - pending) * (set z | z in zoneList) + pending
        invariant forall z :: z in mapping ==> z in snapshot && mapping[z] == snapshot[z]
        decreases pending
      {
        var z :| z in pending;
        if z !in zoneList {
          mapping := mapping - {z};
        }
        pending := pending - {z};
      }
    }

    /** The inner loop of step three, for one zone: push every agent that
        satisfies the predicate, in query order. */
    method PushHits(entry: ZoneEntry, agents: seq<AgentEntry>)
      requires entry.id in mapping
      modifies this
      ensures mapping == old(mapping)[entry.id := old(mapping)[entry.id] + Hits(entry.zone, entry.pos, agents)]
    {
      assert agents[..0] == [];
      assert old(mapping)[entry.id] + [] == old(mapping)[entry.id];
      assert old(mapping)[entry.id := old(mapping)[entry.id]] == mapping;
      for j := 0 to |agents|
        invariant mapping == old(mapping)[entry.id := old(mapping)[entry.id] + Hits(entry.zone, entry.pos, agents[..j])]
      {
        assert agents[..j + 1][..j] == agents[..j];
        assert Hits(entry.zone, entry.pos, agents[..j + 1]) == Hits(entry.zone, entry.pos, agents[..j])
          + (if Contains(entry.zone, entry.pos, agents[j].pos) then [agents[j].id] else []);
        ghost var pushed := old(mapping)[entry.id] + Hits(entry.zone, entry.pos, agents[..j]);
        if Contains(entry.zone, entry.pos, agents[j].pos) {
          mapping := mapping[entry.id := mapping[entry.id] + [agents[j].id]];
          assert pushed + [agents[j].id] == old(mapping)[entry.id] + Hits(entry.zone, entry.pos, agents[..j + 1]);
        } else {
          assert pushed == old(mapping)[entry.id] + Hits(entry.zone, entry.pos, agents[..j + 1]);
        }
      }
      assert agents[..|agents|] == agents;
    }

    /** Step three: for every zone and then every agent, push the agent onto
        the zone's list when the predicate holds. The requires is why the
        `get_mut(..).unwrap()` cannot fail; no key is added or removed. */
    method AppendContained(zones: seq<ZoneEntry>, agents: seq<AgentEntry>)
      requires forall i :: 0 <= i < |zones| ==> zones[i].id in mapping
      modifies this
      ensures mapping.Keys == old(mapping).Keys
      ensures forall z :: z in mapping ==> mapping[z] == old(mapping)[z] + ZoneHits(zones, z, agents)
    {
      for i := 0 to |zones|
        invariant mapping.Keys == old(mapping).Keys
        invariant forall z :: z in mapping ==> mapping[z] == old(mapping)[z] + ZoneHits(zones[..i], z, agents)
      {
        assert zones[..i + 1][..i] == zones[..i];
        PushHits(zones[i], agents);
      }
      assert zones[..|zones|] == zones;
    }

    /** `update_zones`: one pass, proved to give `Pass` of the old map. */
    method UpdateZones(zones: seq<ZoneEntry>, agents: seq<AgentEntry>)
      modifies this
      ensures mapping == Pass(old(mapping), zones, agents)
    {
      var zoneList := ZoneIds(zones);
      InsertMissing(zoneList);
      RemoveStale(zoneList);
      assert mapping.Keys == LiveZones(zones);
      forall i | 0 <= i < |zones| ensures zones[i].id in mapping {
        assert zoneList[i] == zones[i].id;
      }
      ghost var reconciled := mapping;
      AppendContained(zones, agents);
      PassOfSteps(old(mapping), reconciled, mapping, zones, agents);
    }

    /** The map step of `spawn_test_zone`: the new zone entity gets an empty
        list; every other key keeps its list. Returns the spawned zone row. */
    method SpawnTestZone(zoneEntity: Entity) returns (spawned: ZoneEntry)
      modifies this
      ensures spawned == ZoneEntry(zoneEntity, TEST_ZONE, ORIGIN)
      ensures mapping == old(mapping)[zoneEntity := []]
      ensures forall z :: z in old(mapping) && z != zoneEntity ==> z in mapping && mapping[z] == old(mapping)[z]
    {
      spawned := ZoneEntry(zoneEntity, TEST_ZONE, ORIGIN);
      mapping := mapping[zoneEntity := []];
    }
  }

  /** The resource's life in the worked scenario: spawn the test zone, run two
      ticks with one agent at the origin, then one tick after the zone is gone. */
  method RunScenario(zoneEntity: Entity, agentEntity: Entity)
    returns (afterFirst: Mapping, afterSecond: Mapping, afterRemoval: Mapping)
    ensures afterFirst == map[zoneEntity := [agentEntity]]
    ensures afterSecond == map[zoneEntity := [agentEntity, agentEntity]]
    ensures afterRemoval == map[]
  {
    var resource := new AgentZoneMapping();
    var zone := resource.SpawnTestZone(zoneEntity);
    var agents := [AgentEntry(agentEntity, ORIGIN)];
    WorkedScenario(zoneEntity, agentEntity);
    resource.UpdateZones([zone], agents);
    afterFirst := resource.mapping;
    resource.UpdateZones([zone], agents);
    afterSecond := resource.mapping;
    resource.UpdateZones([], agents);
    afterRemoval := resource.mapping;
  }
}
