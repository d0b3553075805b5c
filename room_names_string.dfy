/**
 * Room display names kept as an optional string (the broken display-name
 * example): an empty update is stored as `None`, which then cannot be told
 * apart from a name that was never loaded.
 */
module RoomNamesString {
  import opened Wrappers

  /** `RoomInfo` with `room_name: Option<String>`. */
  datatype RoomInfo = RoomInfo(roomId: string, roomName: Option<string>)

  /**
   * The rooms after `update_room_name(roomId, newName)`: for a known room,
   * "" stores `None` and anything else `Some(newName)`; nothing else changes.
   */
  function UpdatedRooms(rooms: map<string, RoomInfo>, roomId: string, newName: string)
    : (r: map<string, RoomInfo>)
    ensures roomId !in rooms ==> r == rooms
    ensures r.Keys == rooms.Keys
    ensures roomId in rooms && newName == "" ==> r[roomId] == RoomInfo(rooms[roomId].roomId, None)
    ensures roomId in rooms && newName != "" ==> r[roomId] == RoomInfo(rooms[roomId].roomId, Some(newName))
    ensures forall k :: k in rooms && k != roomId ==> r[k] == rooms[k]
  {
    if roomId in rooms then
      rooms[roomId := rooms[roomId].(roomName := if newName == "" then None else Some(newName))]
    else rooms
  }

  /** `get_display_name`: the stored name, or "Unknown Room". */
  function DisplayName(rooms: map<string, RoomInfo>, roomId: string): (r: string)
    ensures roomId !in rooms || rooms[roomId].roomName.None? ==> r == "Unknown Room"
    ensures roomId in rooms && rooms[roomId].roomName.Some? ==> r == rooms[roomId].roomName.value
  {
    if roomId in rooms && rooms[roomId].roomName.Some? then rooms[roomId].roomName.value
    else "Unknown Room"
  }

  /**
   * The lost distinction: after an update with "", a known room shows
   * exactly what a room whose name was never loaded shows, and so does a
   * room id that is not in the list at all.
   */
  lemma EmptyUpdateLooksUnloaded(rooms: map<string, RoomInfo>, roomId: string, unloaded: string, missing: string)
    requires roomId in rooms
    requires unloaded in rooms && rooms[unloaded].roomName.None?
    requires missing !in rooms
    ensures DisplayName(UpdatedRooms(rooms, roomId, ""), roomId) == DisplayName(rooms, unloaded)
    ensures DisplayName(UpdatedRooms(rooms, roomId, ""), roomId) == DisplayName(rooms, missing)
  {
  }

  /** An update with a non-empty name shows that name; other rooms show what they showed. */
  lemma {:induction false} UpdateThenDisplay(rooms: map<string, RoomInfo>, roomId: string, newName: string, other: string)
    ensures roomId in rooms && newName != "" ==> DisplayName(UpdatedRooms(rooms, roomId, newName), roomId) == newName
    ensures other != roomId ==> DisplayName(UpdatedRooms(rooms, roomId, newName), other) == DisplayName(rooms, other)
  {
    var r := UpdatedRooms(rooms, roomId, newName);
    if other != roomId && other in rooms {
      assert r[other] == rooms[other];
    }
  }

  /** `RoomsList` and its map of rooms. */
  class RoomsList {
    var rooms: map<string, RoomInfo>

    /** `RoomsList::new`. */
    constructor()
      ensures rooms == map[]
    {
      rooms := map[];
    }

    /** `update_room_name`: an empty name is stored as `None`. */
    method UpdateRoomName(roomId: string, newName: string)
      modifies this
      ensures rooms == UpdatedRooms(old(rooms), roomId, newName)
    {
      if roomId in rooms {
        var room := rooms[roomId];
        if newName == "" {
          rooms := rooms[roomId := room.(roomName := None)];
        } else {
          rooms := rooms[roomId := room.(roomName := Some(newName))];
        }
      }
    }
  }

  /** `main`: the named room reads "Unknown Room" after an empty update, as the unloaded one does. */
  method EmptyUpdateScenario() returns (before: seq<string>, afterEmpty: string)
    ensures before == ["General Chat", "Unknown Room"]
    ensures afterEmpty == "Unknown Room" == before[1]
  {
    var list := new RoomsList();
    list.rooms := list.rooms["!abc:matrix.org" := RoomInfo("!abc:matrix.org", Some("General Chat"))];
    list.rooms := list.rooms["!xyz:matrix.org" := RoomInfo("!xyz:matrix.org", None)];
    before := [DisplayName(list.rooms, "!abc:matrix.org"), DisplayName(list.rooms, "!xyz:matrix.org")];
    list.UpdateRoomName("!abc:matrix.org", "");
    afterEmpty := DisplayName(list.rooms, "!abc:matrix.org");
  }
}
