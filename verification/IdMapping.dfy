/**
 Translating user and group IDs between a container and its host. IDs and sizes are
 unsigned 32-bit numbers, and the end of a range is computed in 32 bits.
 */
module IdMapping {
  import opened Optional

  const LIMIT: nat := 0x1_0000_0000

  type ID = n: nat | n < LIMIT

  datatype Mapping = Mapping(containerID: ID, hostID: ID, size: ID)

  datatype Side = Container | Host

  function Start(m: Mapping, side: Side): ID {
    if side.Container? then m.containerID else m.hostID
  }

  function Other(side: Side): Side {
    if side.Container? then Host else Container
  }

  /** A sum of two 32-bit numbers, in 32 bits. */
  function Sum(a: ID, b: ID): ID {
    if a + b < LIMIT then a + b else a + b - LIMIT
  }

  /** The test of the loops, with the sum wrapped to 32 bits. */
  predicate Covers(m: Mapping, side: Side, id: ID) {
    Start(m, side) <= id < Sum(Start(m, side), m.size)
  }

  function Shift(m: Mapping, from: Side, id: ID): ID
    requires Covers(m, from, id)
  {
    Sum(id - Start(m, from), Start(m, Other(from)))
  }

  /** The first mapping that covers the ID, or the number of mappings. */
  function First(ms: seq<Mapping>, side: Side, id: ID): (k: nat)
    ensures k <= |ms| && (k < |ms| ==> Covers(ms[k], side, id))
    ensures forall j :: 0 <= j < k ==> !Covers(ms[j], side, id)
  {
    if ms == [] then 0
    else if Covers(ms[0], side, id) then 0
    else 1 + First(ms[1..], side, id)
  }

  /** What the ID is on the other side; with no mappings at all, it is the same. */
  function Translated(ms: seq<Mapping>, from: Side, id: ID): Option<ID> {
    var k := First(ms, from, id);
    if ms == [] then Some(id) else if k < |ms| then Some(Shift(ms[k], from, id)) else None
  }

  /** One loop of GetHostIDs or of GetContainerIDs. */
  method Translate(ms: seq<Mapping>, from: Side, id: ID) returns (r: Option<ID>)
    ensures r == Translated(ms, from, id)
  {
    var mapped := true;
    r := Some(id);
    for k := 0 to |ms|
      invariant mapped == (k == 0) && r == Some(id)
      invariant forall j :: 0 <= j < k ==> !Covers(ms[j], from, id)
    {
      mapped := false;
      if Covers(ms[k], from, id) {
        r := Some(Shift(ms[k], from, id));
        mapped := true;
        break;
      }
    }
    if !mapped {
      r := None;
    }
  }

  method GetHostIDs(uids: seq<Mapping>, gids: seq<Mapping>, uid: ID, gid: ID) returns (r: Option<(ID, ID)>)
    ensures r.Some? <==> Translated(uids, Container, uid).Some? && Translated(gids, Container, gid).Some?
    ensures r.Some? ==>
      && Translated(uids, Container, uid) == Some(r.value.0)
      && Translated(gids, Container, gid) == Some(r.value.1)
  {
    var u := Translate(uids, Container, uid);
    if u.None? {
      return None;
    }
    var g := Translate(gids, Container, gid);
    if g.None? {
      return None;
    }
    r := Some((u.value, g.value));
  }

  method GetContainerIDs(uids: seq<Mapping>, gids: seq<Mapping>, uid: ID, gid: ID) returns (r: Option<(ID, ID)>)
    ensures r.Some? <==> Translated(uids, Host, uid).Some? && Translated(gids, Host, gid).Some?
    ensures r.Some? ==>
      && Translated(uids, Host, uid) == Some(r.value.0)
      && Translated(gids, Host, gid) == Some(r.value.1)
  {
    var u := Translate(uids, Host, uid);
    if u.None? {
      return None;
    }
    var g := Translate(gids, Host, gid);
    if g.None? {
      return None;
    }
    r := Some((u.value, g.value));
  }

  /** What the kernel demands of the container's side: no range wraps and no two meet. */
  ghost predicate Disjoint(ms: seq<Mapping>, side: Side) {
    && (forall i :: 0 <= i < |ms| && ms[i].size > 0 ==> Start(ms[i], side) + ms[i].size < LIMIT)
    && (forall i, j, id: ID :: 0 <= i < j < |ms| ==> !(Covers(ms[i], side, id) && Covers(ms[j], side, id)))
  }

  /** What is mapped to the host and back is what it was. */
  ghost predicate RoundTrips(ms: seq<Mapping>) {
    forall id: ID :: Translated(ms, Container, id).Some? ==>
      Translated(ms, Host, Translated(ms, Container, id).value) == Some(id)
  }

  lemma ShiftedIsCovered(m: Mapping, id: ID)
    requires Covers(m, Container, id) && m.hostID + m.size < LIMIT
    ensures Covers(m, Host, Shift(m, Container, id)) && Shift(m, Host, Shift(m, Container, id)) == id
  {
  }

  /** Translations to the host and back agree, if the ranges on the host do not wrap or meet. */
  lemma DisjointRoundTrips(ms: seq<Mapping>)
    requires Disjoint(ms, Host)
    ensures RoundTrips(ms)
  {
    forall id: ID | Translated(ms, Container, id).Some?
      ensures Translated(ms, Host, Translated(ms, Container, id).value) == Some(id)
    {
      var k := First(ms, Container, id);
      if k < |ms| {
        ShiftedIsCovered(ms[k], id);
        FirstIsOnly(ms, Host, k, Shift(ms[k], Container, id));
      }
    }
  }

  /** A mapping's IDs are translated by that mapping, if no two mappings meet. */
  lemma FirstIsOnly(ms: seq<Mapping>, side: Side, i: nat, id: ID)
    requires Disjoint(ms, side) && i < |ms| && Covers(ms[i], side, id)
    ensures First(ms, side, id) == i
  {
  }

  lemma ComesBackThroughItself(ms: seq<Mapping>, i: nat, id: ID)
    requires Disjoint(ms, Container) && RoundTrips(ms) && i < |ms| && Covers(ms[i], Container, id)
    ensures First(ms, Host, Shift(ms[i], Container, id)) == i
  {
    FirstIsOnly(ms, Container, i, id);
    assert Translated(ms, Container, id).Some?;
    var h := Shift(ms[i], Container, id);
    var j := First(ms, Host, h);
    assert j < |ms|;
    BackInRange(ms[j], h);
    if ms[j].size > 0 && Start(ms[j], Container) + ms[j].size < LIMIT {
      FirstIsOnly(ms, Container, j, id);
    }
  }

  lemma BackInRange(m: Mapping, h: ID)
    requires Covers(m, Host, h)
    ensures m.size > 0
    ensures m.containerID + m.size < LIMIT ==> Covers(m, Container, Shift(m, Host, h))
  {
  }

  lemma RoundTripsDisjoint(ms: seq<Mapping>)
    requires Disjoint(ms, Container) && RoundTrips(ms)
    ensures Disjoint(ms, Host)
  {
    forall i | 0 <= i < |ms| && ms[i].size > 0
      ensures Start(ms[i], Host) + ms[i].size < LIMIT
    {
      assert Covers(ms[i], Container, ms[i].containerID);
      ComesBackThroughItself(ms, i, ms[i].containerID);
    }
    forall i, j, h: ID | 0 <= i < j < |ms|
      ensures !(Covers(ms[i], Host, h) && Covers(ms[j], Host, h))
    {
      if Covers(ms[i], Host, h) && Covers(ms[j], Host, h) {
        BothComeBack(ms, i, h);
        BothComeBack(ms, j, h);
      }
    }
  }

  lemma BothComeBack(ms: seq<Mapping>, i: nat, h: ID)
    requires Disjoint(ms, Container) && RoundTrips(ms) && i < |ms| && Covers(ms[i], Host, h)
    ensures First(ms, Host, h) == i
  {
    BackInRange(ms[i], h);
    var id := Shift(ms[i], Host, h);
    assert Shift(ms[i], Container, id) == h;
    ComesBackThroughItself(ms, i, id);
  }

  /**
   Exactly when the translations undo each other, for mappings whose ranges in the
   container neither wrap nor meet.
   */
  lemma RoundTripsExactlyWhenDisjoint(ms: seq<Mapping>)
    requires Disjoint(ms, Container)
    ensures RoundTrips(ms) <==> Disjoint(ms, Host)
  {
    if RoundTrips(ms) {
      RoundTripsDisjoint(ms);
    }
    if Disjoint(ms, Host) {
      DisjointRoundTrips(ms);
    }
  }

  /** Exactly which IDs a range translates: those in it, if its end can be written in 32 bits. */
  lemma FoundExactlyWhen(m: Mapping, side: Side, id: ID)
    ensures Translated([m], side, id).Some? <==>
      Start(m, side) <= id < Start(m, side) + m.size && Start(m, side) + m.size < LIMIT
  {
    assert Covers(m, side, id) <==>
      Start(m, side) <= id < Start(m, side) + m.size && Start(m, side) + m.size < LIMIT;
    assert First([m], side, id) == 0 <==> Covers(m, side, id);
  }

  /**
   A range that ends with the very last ID is never found: its end wraps to zero. So the
   mapping of the last ID to itself gives no way back, though it is a legal mapping.
   */
  lemma LastRangeIsNeverFound(m: Mapping, side: Side, id: ID)
    requires Start(m, side) + m.size >= LIMIT
    ensures Translated([m], side, id) == None
  {
    FoundExactlyWhen(m, side, id);
  }

  // Which ID it is, without the functions for it.

  /** The ID is in the k-th range of IDs in the container, whose end can be written in 32 bits, and in none before. */
  ghost predicate IsInContainerRange(ms: seq<Mapping>, id: ID, k: nat) {
    && k < |ms| && ms[k].containerID <= id < ms[k].containerID + ms[k].size < LIMIT
    && forall j :: 0 <= j < k ==> !(ms[j].containerID <= id < ms[j].containerID + ms[j].size < LIMIT)
  }

  ghost predicate IsInHostRange(ms: seq<Mapping>, id: ID, k: nat) {
    && k < |ms| && ms[k].hostID <= id < ms[k].hostID + ms[k].size < LIMIT
    && forall j :: 0 <= j < k ==> !(ms[j].hostID <= id < ms[j].hostID + ms[j].size < LIMIT)
  }

  lemma CoversIs(m: Mapping, id: ID)
    ensures Covers(m, Container, id) <==> m.containerID <= id < m.containerID + m.size < LIMIT
    ensures Covers(m, Host, id) <==> m.hostID <= id < m.hostID + m.size < LIMIT
  {
  }

  lemma FirstIs(ms: seq<Mapping>, id: ID)
    ensures IsInContainerRange(ms, id, First(ms, Container, id)) <==> First(ms, Container, id) < |ms|
    ensures IsInHostRange(ms, id, First(ms, Host, id)) <==> First(ms, Host, id) < |ms|
    ensures forall k :: IsInContainerRange(ms, id, k) ==> k == First(ms, Container, id)
    ensures forall k :: IsInHostRange(ms, id, k) ==> k == First(ms, Host, id)
  {
    forall m: Mapping
      ensures Covers(m, Container, id) <==> m.containerID <= id < m.containerID + m.size < LIMIT
      ensures Covers(m, Host, id) <==> m.hostID <= id < m.hostID + m.size < LIMIT
    {
      CoversIs(m, id);
    }
    hide Covers;
  }

  /** As far from the one start as the other ID is from the other start, in 32 bits. */
  predicate IsAsFar(id: ID, start: ID, id': ID, start': ID) {
    start <= id && (id' == start' + (id - start) || id' + LIMIT == start' + (id - start))
  }

  /** The ID on the host: in its range there it is where it is in the range in the container. */
  lemma HostIDExactlyWhen(ms: seq<Mapping>, id: ID, h: ID)
    ensures Translated(ms, Container, id) == Some(h) <==>
      || (ms == [] && h == id)
      || exists k: nat :: IsInContainerRange(ms, id, k) && IsAsFar(id, ms[k].containerID, h, ms[k].hostID)
  {
    FirstIs(ms, id);
    var k := First(ms, Container, id);
    hide First;
    if k < |ms| {
      assert Shift(ms[k], Container, id) == h <==> IsAsFar(id, ms[k].containerID, h, ms[k].hostID);
    }
    hide IsAsFar;
    hide IsInHostRange;
  }

  /** The ID in the container, likewise. */
  lemma ContainerIDExactlyWhen(ms: seq<Mapping>, id: ID, c: ID)
    ensures Translated(ms, Host, id) == Some(c) <==>
      || (ms == [] && c == id)
      || exists k: nat :: IsInHostRange(ms, id, k) && IsAsFar(id, ms[k].hostID, c, ms[k].containerID)
  {
    FirstIs(ms, id);
    var k := First(ms, Host, id);
    hide First;
    if k < |ms| {
      assert Shift(ms[k], Host, id) == c <==> IsAsFar(id, ms[k].hostID, c, ms[k].containerID);
    }
    hide IsAsFar;
    hide IsInContainerRange;
  }
}
