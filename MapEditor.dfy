/**
  The map editor's view model: a list of map objects, each optionally selected,
  edited in place by id. Saving to and loading from the user defaults is cut off;
  loading is reduced to its outcome, the decoded list or nothing.
*/
module MapEditor {
  import opened Swift
  import opened BookingModels
  import Seqs

  /** A place on the map, with the defaults of its memberwise initialiser. */
  datatype MapObject = MapObject(
    id: Uuid,
    title: string,
    description: string,
    coordinate: Coordinate,
    photoPaths: seq<string>,
    area: int,
    floor: int,
    status: ApartmentStatus,
    bookingRanges: seq<BookingRange>)

  /** The object `startCreatingObject(at:)` puts on the map: blank text, defaults everywhere else. */
  function NewObject(id: Uuid, coordinate: Coordinate): (o: MapObject)
    ensures o.id == id && o.coordinate == coordinate
    ensures o.title == "" && o.description == "" && o.photoPaths == []
    ensures o.area == 0 && o.floor == 0 && o.status == Available && o.bookingRanges == []
  {
    MapObject(id, "", "", coordinate, [], 0, 0, Available, [])
  }

  /** The two in-place edits of a field of one object. */
  datatype Edit = SetTitle(title: string) | SetDescription(description: string)

  function Apply(o: MapObject, e: Edit): (r: MapObject)
    ensures e.SetTitle? ==> r == o.(title := e.title)
    ensures e.SetDescription? ==> r == o.(description := e.description)
  {
    match e
    case SetTitle(t) => o.(title := t)
    case SetDescription(d) => o.(description := d)
  }

  /** `objects.firstIndex(where: { $0.id == id })`. */
  function IndexOf(objects: seq<MapObject>, id: Uuid): (r: Option<nat>)
    ensures r.Some? ==> r.value < |objects| && objects[r.value].id == id
    ensures r.Some? ==> forall j :: 0 <= j < r.value ==> objects[j].id != id
    ensures r.None? <==> forall j :: 0 <= j < |objects| ==> objects[j].id != id
  {
    Seqs.FirstIndex((o: MapObject) => o.id == id, objects)
  }

  /**
    The list after editing the first object with `id`: that one object gets the edit,
    every other position keeps its object, and an unknown id changes nothing.
  */
  function Edited(objects: seq<MapObject>, id: Uuid, e: Edit): (r: seq<MapObject>)
    ensures |r| == |objects|
    ensures IndexOf(objects, id).None? ==> r == objects
    ensures IndexOf(objects, id).Some? ==>
      var k := IndexOf(objects, id).value;
      r[k] == Apply(objects[k], e) && forall j :: 0 <= j < |r| && j != k ==> r[j] == objects[j]
  {
    match IndexOf(objects, id)
    case None => objects
    case Some(k) => objects[k := Apply(objects[k], e)]
  }

  /** An edit keeps every object's id, so the list still has the same ids in the same places. */
  lemma EditedKeepsIds(objects: seq<MapObject>, id: Uuid, e: Edit)
    ensures forall j :: 0 <= j < |objects| ==> Edited(objects, id, e)[j].id == objects[j].id
  {
  }

  /**
    A title edit touches only the title: every other field of the edited object is what it
    was, and the list changes nowhere else.
  */
  lemma TitleEditChangesOnlyTitle(objects: seq<MapObject>, id: Uuid, title: string, j: int)
    requires 0 <= j < |objects|
    ensures Edited(objects, id, SetTitle(title))[j] ==
      (if IndexOf(objects, id) == Some(j) then objects[j].(title := title) else objects[j])
  {
  }

  /** Repeating a title or description edit changes nothing more. */
  lemma EditIdempotent(objects: seq<MapObject>, id: Uuid, e: Edit)
    ensures Edited(Edited(objects, id, e), id, e) == Edited(objects, id, e)
  {
    var once := Edited(objects, id, e);
    match IndexOf(objects, id)
    case None =>
    case Some(k) =>
      assert forall j :: 0 <= j < k ==> once[j].id == objects[j].id;
      assert IndexOf(once, id) == Some(k);
  }

  /** `MapViewModel` of the map editor. */
  class MapViewModel {
    var objects: seq<MapObject>
    var selectedObject: Option<MapObject>

    /**
      `init()` runs `loadObjects()`. `stored` is what reading and decoding the saved list
      gave: `None` when nothing was saved or it did not decode, and then the list is empty.
    */
    constructor(stored: Option<seq<MapObject>>)
      ensures objects == (if stored.Some? then stored.value else [])
      ensures selectedObject == None
    {
      selectedObject := None;
      match stored
      case Some(decoded) =>
        objects := decoded;
      case None =>
        objects := [];
    }

    /** `startCreatingObject(at:)`: a blank object is appended and selected. */
    method StartCreatingObject(newId: Uuid, coordinate: Coordinate)
      modifies this
      ensures objects == old(objects) + [NewObject(newId, coordinate)]
      ensures selectedObject == Some(NewObject(newId, coordinate))
    {
      var newObject := NewObject(newId, coordinate);
      objects := objects + [newObject];
      selectedObject := Some(newObject);
    }

    /** `updateTitle(for:with:)`. The selected object is a copy and keeps its old title. */
    method UpdateTitle(target: MapObject, newTitle: string)
      modifies this`objects
      ensures objects == Edited(old(objects), target.id, SetTitle(newTitle))
    {
      var index := IndexOf(objects, target.id);
      if index.None? {
        return;
      }
      objects := objects[index.value := objects[index.value].(title := newTitle)];
    }

    /** `updateDescription(for:with:)`. */
    method UpdateDescription(target: MapObject, newDescription: string)
      modifies this`objects
      ensures objects == Edited(old(objects), target.id, SetDescription(newDescription))
    {
      var index := IndexOf(objects, target.id);
      if index.None? {
        return;
      }
      objects := objects[index.value := objects[index.value].(description := newDescription)];
    }

    /** `resetUserObjects()`: no objects and nothing selected. */
    method ResetUserObjects()
      modifies this
      ensures objects == [] && selectedObject == None
    {
      objects := [];
      selectedObject := None;
    }
  }
}
