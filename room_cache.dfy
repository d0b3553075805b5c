/**
 * The UI-thread room cache of the thread-local examples: a map from room
 * id to `RoomData`, changed by insert, by setting one room's unread count
 * and by clearing. The correct example keeps the map in a `RefCell`, the
 * broken one in a `Mutex`; the map operations are the same.
 */
module RoomCaches {
  import opened Wrappers

  /** `RoomData`. */
  datatype RoomData = RoomData(id: string, name: string, unreadCount: u32)

  /** The `ROOM_CACHE` map. */
  class RoomCache {
    var rooms: map<string, RoomData>

    /** An empty cache, as the thread-local initialiser builds it. */
    constructor()
      ensures rooms == map[]
    {
      rooms := map[];
    }

    /** `get_room`: a copy of the room stored under `roomId`, if any. */
    function GetRoom(roomId: string): (r: Option<RoomData>)
      reads this
      ensures r.Some? <==> roomId in rooms
      ensures r.Some? ==> r.value == rooms[roomId]
    {
      if roomId in rooms then Some(rooms[roomId]) else None
    }

    /** `add_room`: stores `room` under its id, replacing an earlier entry. */
    method AddRoom(room: RoomData)
      modifies this
      ensures rooms == old(rooms)[room.id := room]
      ensures GetRoom(room.id) == Some(room)
      ensures forall id :: id != room.id ==> GetRoom(id) == old(GetRoom(id))
    {
      rooms := rooms[room.id := room];
    }

    /**
     * `update_unread_count`: sets the unread count of a known room and
     * nothing else; an unknown id changes nothing.
     */
    method UpdateUnreadCount(roomId: string, count: u32)
      modifies this
      ensures roomId !in old(rooms) ==> rooms == old(rooms)
      ensures roomId in old(rooms) ==> rooms == old(rooms)[roomId := old(rooms)[roomId].(unreadCount := count)]
      ensures rooms.Keys == old(rooms).Keys
      ensures roomId in rooms ==>
        && rooms[roomId].unreadCount == count
        && rooms[roomId].id == old(rooms)[roomId].id
        && rooms[roomId].name == old(rooms)[roomId].name
      ensures forall id :: id != roomId ==> GetRoom(id) == old(GetRoom(id))
    {
      if roomId in rooms {
        var room := rooms[roomId];
        rooms := rooms[roomId := room.(unreadCount := count)];
      }
    }

    /** `clear_all_rooms`: afterwards no room is found. */
    method ClearAllRooms()
      modifies this
      ensures rooms == map[]
      ensures forall id :: GetRoom(id).None?
    {
      rooms := map[];
    }
  }

  /** `test_ui_context_usage`: add, read back, update the count, clear. */
  method UiContextUsageTest() returns (name: string, unread: u32, afterClear: Option<RoomData>)
    ensures name == "Test Room" && unread == 5 && afterClear.None?
  {
    var cache := new RoomCache();
    cache.AddRoom(RoomData("test_room", "Test Room", 0));
    var room := cache.GetRoom("test_room");
    name := room.value.name;
    cache.UpdateUnreadCount("test_room", 5);
    unread := cache.GetRoom("test_room").value.unreadCount;
    cache.ClearAllRooms();
    afterClear := cache.GetRoom("test_room");
  }

  /** An update for an id that was never added leaves every room as it was. */
  method UnknownUpdateTest() returns (before: Option<RoomData>, after: Option<RoomData>, missing: Option<RoomData>)
    ensures before == after == Some(RoomData("!a:matrix.org", "A", 3)) && missing.None?
  {
    var cache := new RoomCache();
    cache.AddRoom(RoomData("!a:matrix.org", "A", 3));
    before := cache.GetRoom("!a:matrix.org");
    cache.UpdateUnreadCount("!b:matrix.org", 9);
    after := cache.GetRoom("!a:matrix.org");
    missing := cache.GetRoom("!b:matrix.org");
  }
}

/**
 * The sealed-trait example: one `ROOM_CACHE` reached through two access
 * styles, a sealed-trait token and a witness value.
 */
module SealedRooms {
  import opened Wrappers

  /** `RoomData`, without an unread count. */
  datatype RoomData = RoomData(id: string, name: string)

  /** The single `ROOM_CACHE` both approaches use. */
  class RoomCache {
    var rooms: map<string, RoomData>

    /** An empty cache. */
    constructor()
      ensures rooms == map[]
    {
      rooms := map[];
    }
  }
}

/** `sealed_approach`: the token is a type-level proof and carries no data. */
module SealedApproach {
  import opened Wrappers
  import opened SealedRooms

  /** `sealed_approach::add_room`. */
  method AddRoom(cache: RoomCache, room: RoomData)
    modifies cache
    ensures cache.rooms == old(cache.rooms)[room.id := room]
  {
    cache.rooms := cache.rooms[room.id := room];
  }

  /** `sealed_approach::get_room`. */
  function GetRoom(cache: RoomCache, roomId: string): (r: Option<RoomData>)
    reads cache
    ensures r.Some? <==> roomId in cache.rooms
    ensures r.Some? ==> r.value == cache.rooms[roomId]
  {
    if roomId in cache.rooms then Some(cache.rooms[roomId]) else None
  }
}

/** `witness_approach`: the `UiContext` value carries no data. */
module WitnessApproach {
  import opened Wrappers
  import opened SealedRooms

  /** `witness_approach::add_room`. */
  method AddRoom(cache: RoomCache, room: RoomData)
    modifies cache
    ensures cache.rooms == old(cache.rooms)[room.id := room]
  {
    cache.rooms := cache.rooms[room.id := room];
  }

  /** `witness_approach::get_room`. */
  function GetRoom(cache: RoomCache, roomId: string): (r: Option<RoomData>)
    reads cache
    ensures r.Some? <==> roomId in cache.rooms
    ensures r.Some? ==> r.value == cache.rooms[roomId]
  {
    if roomId in cache.rooms then Some(cache.rooms[roomId]) else None
  }
}

/** What the two approaches share: the one cache. */
module SharedRoomCache {
  import opened Wrappers
  import opened SealedRooms
  import SealedApproach
  import WitnessApproach

  /** Both `get_room`s read the same map, so they always agree. */
  lemma GetRoomsAgree(cache: RoomCache, roomId: string)
    ensures SealedApproach.GetRoom(cache, roomId) == WitnessApproach.GetRoom(cache, roomId)
  {
  }

  /**
   * A room added through either approach is returned by either `get_room`;
   * other ids keep what they had.
   */
  method CrossApproachTest(first: RoomData, second: RoomData, other: string)
    returns (viaWitness: Option<RoomData>, viaSealed: Option<RoomData>, otherBefore: Option<RoomData>, otherAfter: Option<RoomData>)
    requires first.id != second.id && other != first.id && other != second.id
    ensures viaWitness == Some(first) && viaSealed == Some(second)
    ensures otherBefore == otherAfter == None
  {
    var cache := new RoomCache();
    otherBefore := WitnessApproach.GetRoom(cache, other);
    SealedApproach.AddRoom(cache, first);
    WitnessApproach.AddRoom(cache, second);
    viaWitness := WitnessApproach.GetRoom(cache, first.id);
    viaSealed := SealedApproach.GetRoom(cache, second.id);
    otherAfter := SealedApproach.GetRoom(cache, other);
  }

  /** `test_sealed_trait_approach` and `test_witness_type_approach`. */
  method ApproachTests() returns (sealedFound: bool, witnessFound: bool)
    ensures sealedFound && witnessFound
  {
    var cache := new RoomCache();
    SealedApproach.AddRoom(cache, RoomData("test", "Test"));
    sealedFound := SealedApproach.GetRoom(cache, "test").Some?;
    var other := new RoomCache();
    WitnessApproach.AddRoom(other, RoomData("test", "Test"));
    witnessFound := WitnessApproach.GetRoom(other, "test").Some?;
  }
}
