/**
 * Room display names kept as a typed state (the correct display-name
 * example): a name is `None` while not loaded, and otherwise one of the
 * `RoomDisplayName` cases, placeholder names among them.
 */
module RoomNames {
  import opened Wrappers

  /** `RoomDisplayName`. */
  datatype RoomDisplayName =
    | Named(name: string)
    | Calculated(name: string)
    | Aliased(alias: string)
    | EmptyWas(previous: string)
    | Empty

  /** `to_display_string`: the text the UI shows for a name. */
  function ToDisplayString(n: RoomDisplayName): (r: string)
    ensures (n.Named? || n.Calculated?) ==> r == n.name
    ensures n.Aliased? ==> r == n.alias
    ensures n.EmptyWas? ==> r == "Empty (was " + n.previous + ")"
    ensures n.Empty? ==> r == "Unnamed Room"
  {
    match n
    case Named(name) => name
    case Calculated(name) => name
    case Aliased(alias) => alias
    case EmptyWas(prev) => "Empty (was " + prev + ")"
    case Empty => "Unnamed Room"
  }

  /** `is_placeholder`: true exactly for `Empty` and `EmptyWas`. */
  predicate IsPlaceholder(n: RoomDisplayName)
  {
    n.Empty? || n.EmptyWas?
  }

  /** A placeholder always shows a non-empty text, unlike `Named("")`. */
  lemma PlaceholderDisplaysText(n: RoomDisplayName)
    ensures IsPlaceholder(n) ==> ToDisplayString(n) != ""
  {
  }

  /** `RoomInfo`: `None` means the name is not loaded yet. */
  datatype RoomInfo = RoomInfo(roomId: string, roomName: Option<RoomDisplayName>)

  /**
   * The rooms after `update_room_name(roomId, newName)`: an unknown room or a
   * placeholder name leaves every room as it was; otherwise only that room
   * gets `Some(newName)`.
   */
  function UpdatedRooms(rooms: map<string, RoomInfo>, roomId: string, newName: RoomDisplayName)
    : (r: map<string, RoomInfo>)
    ensures roomId !in rooms || IsPlaceholder(newName) ==> r == rooms
    ensures r.Keys == rooms.Keys
    ensures roomId in rooms && !IsPlaceholder(newName) ==>
      r[roomId] == RoomInfo(rooms[roomId].roomId, Some(newName))
    ensures forall k :: k in rooms && k != roomId ==> r[k] == rooms[k]
  {
    if roomId in rooms && !IsPlaceholder(newName) then
      rooms[roomId := rooms[roomId].(roomName := Some(newName))]
    else rooms
  }

  /** `get_display_name`: the name's display text, or "Invite to Unnamed Room". */
  function DisplayName(rooms: map<string, RoomInfo>, roomId: string): (r: string)
    ensures roomId !in rooms || rooms[roomId].roomName.None? ==> r == "Invite to Unnamed Room"
    ensures roomId in rooms && rooms[roomId].roomName.Some? ==> r == ToDisplayString(rooms[roomId].roomName.value)
  {
    if roomId in rooms && rooms[roomId].roomName.Some? then ToDisplayString(rooms[roomId].roomName.value)
    else "Invite to Unnamed Room"
  }

  /**
   * After an update, the updated room shows the new name's text when the
   * update was taken, and every other room shows what it showed before.
   */
  lemma {:induction false} UpdateThenDisplay(rooms: map<string, RoomInfo>, roomId: string, newName: RoomDisplayName, other: string)
    ensures roomId in rooms && !IsPlaceholder(newName) ==>
      DisplayName(UpdatedRooms(rooms, roomId, newName), roomId) == ToDisplayString(newName)
    ensures other != roomId || IsPlaceholder(newName) ==>
      DisplayName(UpdatedRooms(rooms, roomId, newName), other) == DisplayName(rooms, other)
  {
    var r := UpdatedRooms(rooms, roomId, newName);
    if other != roomId && other in rooms {
      assert r[other] == rooms[other];
    }
  }

  /** `RoomsList` and its map of rooms. */
  class RoomsList {
    var rooms: map<string, RoomInfo>

    /** `RoomsList::new`. */
    constructor()
      ensures rooms == map[]
    {
      rooms := map[];
    }

    /** `update_room_name`: skips unknown rooms and placeholder names. */
    method UpdateRoomName(roomId: string, newName: RoomDisplayName)
      modifies this
      ensures rooms == UpdatedRooms(old(rooms), roomId, newName)
    {
      if roomId in rooms {
        if IsPlaceholder(newName) {
          return;
        }
        var room := rooms[roomId];
        rooms := rooms[roomId := room.(roomName := Some(newName))];
      }
    }
  }

  /**
   * `main`: a named room keeps its name through a placeholder update, a room
   * without a loaded name shows the invite text until a proper name arrives,
   * and an explicitly empty room shows "Unnamed Room".
   */
  method DisplayNameScenario() returns (before: seq<string>, after: seq<string>)
    ensures before == ["General Chat", "Invite to Unnamed Room", "Unnamed Room"]
    ensures after == ["General Chat", "Private Chat", "Unnamed Room"]
  {
    var list := new RoomsList();
    list.rooms := list.rooms["!abc:matrix.org" := RoomInfo("!abc:matrix.org", Some(Named("General Chat")))];
    list.rooms := list.rooms["!xyz:matrix.org" := RoomInfo("!xyz:matrix.org", None)];
    list.rooms := list.rooms["!def:matrix.org" := RoomInfo("!def:matrix.org", Some(Empty))];
    before := [DisplayName(list.rooms, "!abc:matrix.org"), DisplayName(list.rooms, "!xyz:matrix.org"),
               DisplayName(list.rooms, "!def:matrix.org")];
    list.UpdateRoomName("!abc:matrix.org", Empty);
    list.UpdateRoomName("!xyz:matrix.org", Named("Private Chat"));
    after := [DisplayName(list.rooms, "!abc:matrix.org"), DisplayName(list.rooms, "!xyz:matrix.org"),
              DisplayName(list.rooms, "!def:matrix.org")];
  }
}
