/**
 * The per-id updates the valve list hands back to its owner: each handler
 * maps the list, changing one field of the entries with the given id.
 */
module ValveListComponent {
  import opened ValveComponent

  function HandleNameChange(valves: seq<Valve>, id: int, newName: string): (r: seq<Valve>)
    ensures |r| == |valves|
    ensures forall i | 0 <= i < |r| ::
      && r[i].id == valves[i].id && r[i].duration == valves[i].duration && r[i].isActive == valves[i].isActive
      && r[i].name == (if valves[i].id == id then newName else valves[i].name)
  {
    seq(|valves|, i requires 0 <= i < |valves| =>
      if valves[i].id == id then valves[i].(name := newName) else valves[i])
  }

  function HandleDurationChange(valves: seq<Valve>, id: int, newDuration: int): (r: seq<Valve>)
    ensures |r| == |valves|
    ensures forall i | 0 <= i < |r| ::
      && r[i].id == valves[i].id && r[i].name == valves[i].name && r[i].isActive == valves[i].isActive
      && r[i].duration == (if valves[i].id == id then newDuration else valves[i].duration)
  {
    seq(|valves|, i requires 0 <= i < |valves| =>
      if valves[i].id == id then valves[i].(duration := newDuration) else valves[i])
  }

  function HandleToggleActive(valves: seq<Valve>, id: int): (r: seq<Valve>)
    ensures |r| == |valves|
    ensures forall i | 0 <= i < |r| ::
      && r[i].id == valves[i].id && r[i].name == valves[i].name && r[i].duration == valves[i].duration
      && r[i].isActive == (if valves[i].id == id then !valves[i].isActive else valves[i].isActive)
  {
    seq(|valves|, i requires 0 <= i < |valves| =>
      if valves[i].id == id then valves[i].(isActive := !valves[i].isActive) else valves[i])
  }

  /** The ids in list order. */
  function Ids(valves: seq<Valve>): (r: seq<int>)
    ensures |r| == |valves| && forall i | 0 <= i < |r| :: r[i] == valves[i].id
  {
    if valves == [] then [] else [valves[0].id] + Ids(valves[1..])
  }

  /** No handler changes the ids or their order. */
  lemma HandlersKeepIds(valves: seq<Valve>, id: int, newName: string, newDuration: int)
    ensures Ids(HandleNameChange(valves, id, newName)) == Ids(valves)
    ensures Ids(HandleDurationChange(valves, id, newDuration)) == Ids(valves)
    ensures Ids(HandleToggleActive(valves, id)) == Ids(valves)
  {
  }

  /** Toggling the same id twice gives the list back. */
  lemma ToggleTwice(valves: seq<Valve>, id: int)
    ensures HandleToggleActive(HandleToggleActive(valves, id), id) == valves
  {
    var r := HandleToggleActive(HandleToggleActive(valves, id), id);
    assert forall i | 0 <= i < |r| :: r[i] == valves[i];
  }

  /** An id no entry has leaves the list as it was. */
  lemma AbsentId(valves: seq<Valve>, id: int, newName: string, newDuration: int)
    requires id !in Ids(valves)
    ensures HandleNameChange(valves, id, newName) == valves
    ensures HandleDurationChange(valves, id, newDuration) == valves
    ensures HandleToggleActive(valves, id) == valves
  {
    assert forall i | 0 <= i < |valves| :: valves[i].id != id by {
      forall i | 0 <= i < |valves| ensures valves[i].id != id {
        assert Ids(valves)[i] == valves[i].id;
      }
    }
    var a, b, c := HandleNameChange(valves, id, newName), HandleDurationChange(valves, id, newDuration), HandleToggleActive(valves, id);
    assert forall i | 0 <= i < |valves| :: a[i] == valves[i] && b[i] == valves[i] && c[i] == valves[i];
  }

  /** Renaming to the same name twice is renaming once, and so for durations. */
  lemma ChangesIdempotent(valves: seq<Valve>, id: int, newName: string, newDuration: int)
    ensures HandleNameChange(HandleNameChange(valves, id, newName), id, newName) == HandleNameChange(valves, id, newName)
    ensures HandleDurationChange(HandleDurationChange(valves, id, newDuration), id, newDuration)
         == HandleDurationChange(valves, id, newDuration)
  {
    var a, a2 := HandleNameChange(valves, id, newName), HandleNameChange(HandleNameChange(valves, id, newName), id, newName);
    assert forall i | 0 <= i < |a| :: a2[i] == a[i];
    var b, b2 := HandleDurationChange(valves, id, newDuration), HandleDurationChange(HandleDurationChange(valves, id, newDuration), id, newDuration);
    assert forall i | 0 <= i < |b| :: b2[i] == b[i];
  }

  /** Changes to different fields commute. */
  lemma NameAndDurationCommute(valves: seq<Valve>, id1: int, newName: string, id2: int, newDuration: int)
    ensures HandleDurationChange(HandleNameChange(valves, id1, newName), id2, newDuration)
         == HandleNameChange(HandleDurationChange(valves, id2, newDuration), id1, newName)
  {
    var a := HandleDurationChange(HandleNameChange(valves, id1, newName), id2, newDuration);
    var b := HandleNameChange(HandleDurationChange(valves, id2, newDuration), id1, newName);
    assert forall i | 0 <= i < |a| :: a[i] == b[i];
  }
}
