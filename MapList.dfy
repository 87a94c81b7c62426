/**
  The plain map list: objects are appended, and removed by a set of list offsets.
  A failed load leaves the list as it was.
*/
module MapList {
  import opened Swift
  import Seqs

  /** A place on the map with its raw photo data. */
  datatype MapObject = MapObject(id: Uuid, title: string, description: string, coordinate: Coordinate, photos: seq<seq<bv8>>)

  /** An `IndexSet` whose every member is an index of `objects`, as `remove(atOffsets:)` demands. */
  predicate ValidOffsets(objects: seq<MapObject>, offsets: set<int>) {
    forall o :: o in offsets ==> 0 <= o < |objects|
  }

  /** `MapViewModel` of the plain map list. */
  class MapViewModel {
    var objects: seq<MapObject>
    var draftCoordinate: Option<Coordinate>

    /** `init()`: starts empty, then `loadObjects()`. */
    constructor(stored: Option<seq<MapObject>>)
      ensures objects == (if stored.Some? then stored.value else [])
      ensures draftCoordinate == None
    {
      objects := [];
      draftCoordinate := None;
      new;
      LoadObjects(stored);
    }

    /**
      `loadObjects()`: `stored` is the decoded saved list, `None` when there is none or it
      does not decode; then the list is left as it was.
    */
    method LoadObjects(stored: Option<seq<MapObject>>)
      modifies this`objects
      ensures objects == (if stored.Some? then stored.value else old(objects))
    {
      if stored.Some? {
        objects := stored.value;
      }
    }

    /** `addObject(_:)`. */
    method AddObject(newObject: MapObject)
      modifies this`objects
      ensures objects == old(objects) + [newObject]
    {
      objects := objects + [newObject];
    }

    /**
      `deleteObject(at:)`: the objects at the given offsets go, the others stay in order,
      and the count drops by the number of offsets.
    */
    method DeleteObject(offsets: set<int>)
      requires ValidOffsets(objects, offsets)
      modifies this`objects
      ensures objects == Seqs.RemovedAt(old(objects), offsets)
      ensures |objects| == |old(objects)| - |offsets|
      ensures Seqs.IsSubsequence(objects, old(objects))
    {
      Seqs.RemovedAtProperties(objects, offsets);
      objects := Seqs.RemovedAt(objects, offsets);
    }
  }
}
