/**
 * The browser client's room model from `client/app.js`: `Room`, the `Lobby` that maps ids to rooms,
 * the periodic `refreshLobby` merge of the server's room listing, and the dispatch of `location.hash`
 * to a page. Views, the DOM and the network are not modelled.
 */
module Client {
  import opened Types
  import opened JsText

  /** The image a room without one is shown with. */
  const DefaultImage: string := "assets/everyone-icon.png"

  /** The observable fields of a `Room`. */
  datatype RoomState = RoomState(id: RoomId, name: Option<string>, image: Option<string>, messages: seq<Message>)

  /** The state `new Room(id, name, image, messages)` starts in: falsy image and messages get their defaults. */
  function InitialState(id: RoomId, name: Option<string>, image: Option<string>, messages: Option<seq<Message>>): (s: RoomState)
    ensures s.id == id && s.name == name
    ensures Falsy(image) ==> s.image == Some(DefaultImage)
    ensures !Falsy(image) ==> s.image == image
    ensures messages.None? ==> s.messages == []
    ensures messages.Some? ==> s.messages == messages.value
  {
    RoomState(id, name, if Falsy(image) then Some(DefaultImage) else image,
              if messages.Some? then messages.value else [])
  }

  class Room {
    const id: RoomId
    var name: Option<string>
    var image: Option<string>
    /** The room's messages, oldest first. */
    var messages: seq<Message>

    function State(): RoomState
      reads this
    {
      RoomState(id, name, image, messages)
    }

    constructor (id: RoomId, name: Option<string>, image: Option<string>, messages: Option<seq<Message>>)
      ensures State() == InitialState(id, name, image, messages)
    {
      this.id := id;
      this.name := name;
      this.image := if Falsy(image) then Some(DefaultImage) else image;
      this.messages := if messages.Some? then messages.value else [];
    }

    /** `addMessage`: a text that is white space only is dropped; any other is appended as sent. */
    method AddMessage(username: Option<string>, text: string)
      modifies this
      ensures IsBlank(text) ==> messages == old(messages)
      ensures !IsBlank(text) ==> messages == old(messages) + [Message(username, text)]
      ensures name == old(name) && image == old(image)
    {
      TrimEmptyIff(text);
      if Trim(text) != "" {
        messages := messages + [Message(username, text)];
      }
    }

    /** `addConversation`: an older block of history goes in front of the messages already shown. */
    method AddConversation(conversation: Conversation)
      modifies this
      ensures messages == conversation.messages + old(messages)
      ensures messages[..|conversation.messages|] == conversation.messages
      ensures messages[|conversation.messages|..] == old(messages)
      ensures name == old(name) && image == old(image)
    {
      messages := conversation.messages + messages;
    }
  }

  /** The lobby after the listing entry `l` of a refresh: a known room gets its name and image replaced, an unknown one is added. */
  function MergeOne(view: map<RoomId, RoomState>, l: RoomListing): (r: map<RoomId, RoomState>)
    ensures r.Keys == view.Keys + {l.id}
  {
    if l.id in view then view[l.id := view[l.id].(name := l.name, image := l.image)]
    else view[l.id := InitialState(l.id, l.name, l.image, l.messages)]
  }

  /** The ids a listing names. */
  function ListedIds(listing: seq<RoomListing>): set<RoomId> {
    set i | 0 <= i < |listing| :: listing[i].id
  }

  /** The lobby after a whole listing, entry by entry in order: it knows the rooms it knew and the listed ones. */
  function MergeListing(view: map<RoomId, RoomState>, listing: seq<RoomListing>): (r: map<RoomId, RoomState>)
    ensures r.Keys == view.Keys + ListedIds(listing)
  {
    if listing == [] then view
    else
      var init, l := listing[..|listing| - 1], listing[|listing| - 1];
      assert init + [l] == listing;
      ListedIdsSnoc(init, l);
      MergeOne(MergeListing(view, init), l)
  }

  lemma ListedIdsSnoc(listing: seq<RoomListing>, l: RoomListing)
    ensures ListedIds(listing + [l]) == ListedIds(listing) + {l.id}
  {
    var all := listing + [l];
    assert all[|listing|].id == l.id;
    forall k | k in ListedIds(all) ensures k in ListedIds(listing) + {l.id} {
      var i :| 0 <= i < |all| && all[i].id == k;
      if i < |listing| { assert all[i] == listing[i]; }
    }
    forall k | k in ListedIds(listing) ensures k in ListedIds(all) {
      var i :| 0 <= i < |listing| && listing[i].id == k;
      assert all[i] == listing[i];
    }
  }

  /** After a refresh every room of the lobby is filed under its own id. */
  lemma {:induction false} MergeListingKeys(view: map<RoomId, RoomState>, listing: seq<RoomListing>)
    requires forall k | k in view :: view[k].id == k
    ensures MergeListing(view, listing).Keys == view.Keys + ListedIds(listing)
    ensures forall k | k in MergeListing(view, listing) :: MergeListing(view, listing)[k].id == k
  {
    if listing != [] {
      var init := listing[..|listing| - 1];
      MergeListingKeys(view, init);
      var prev, l := MergeListing(view, init), listing[|listing| - 1];
      var next := MergeOne(prev, l);
      assert MergeListing(view, listing) == next;
      forall k | k in next ensures next[k].id == k {
        if k != l.id { assert next[k] == prev[k]; }
      }
    }
  }

  /** A room the lobby knew keeps its messages through a refresh, and one the listing does not name is untouched. */
  lemma {:induction false} MergeListingKeeps(view: map<RoomId, RoomState>, listing: seq<RoomListing>)
    ensures forall k | k in view :: k in MergeListing(view, listing) && MergeListing(view, listing)[k].messages == view[k].messages
    ensures forall k | k in view && k !in ListedIds(listing) :: MergeListing(view, listing)[k] == view[k]
  {
    if listing != [] {
      var init := listing[..|listing| - 1];
      var l := listing[|listing| - 1];
      MergeListingKeeps(view, init);
      assert init + [l] == listing;
      ListedIdsSnoc(init, l);
    }
  }

  /**
   * A room the lobby already showed ends a refresh with the name and image of the last listing entry
   * for it, taken as given (an absent image stays absent), and with the messages it had.
   */
  lemma {:induction false} MergeListingLastWins(view: map<RoomId, RoomState>, listing: seq<RoomListing>, i: nat)
    requires i < |listing| && listing[i].id in view
    requires forall j | i < j < |listing| :: listing[j].id != listing[i].id
    ensures listing[i].id in MergeListing(view, listing)
    ensures var r := MergeListing(view, listing)[listing[i].id];
            r.name == listing[i].name && r.image == listing[i].image && r.messages == view[listing[i].id].messages
  {
    var init, l := listing[..|listing| - 1], listing[|listing| - 1];
    MergeListingKeeps(view, init);
    if i < |listing| - 1 {
      assert init[i] == listing[i];
      MergeListingLastWins(view, init, i);
    }
  }

  /**
   * A room the lobby did not show, named by a single listing entry, ends a refresh in the state
   * `new Room` gives it from that entry.
   */
  lemma {:induction false} MergeListingNewRoom(view: map<RoomId, RoomState>, listing: seq<RoomListing>, i: nat)
    requires i < |listing| && listing[i].id !in view
    requires forall j | 0 <= j < |listing| && j != i :: listing[j].id != listing[i].id
    ensures listing[i].id in MergeListing(view, listing)
    ensures MergeListing(view, listing)[listing[i].id] ==
              InitialState(listing[i].id, listing[i].name, listing[i].image, listing[i].messages)
  {
    var init := listing[..|listing| - 1];
    if i < |listing| - 1 {
      assert init[i] == listing[i];
      MergeListingNewRoom(view, init, i);
    } else {
      assert listing[i].id !in ListedIds(init);
    }
  }

  class Lobby {
    /** `rooms`: the lobby's rooms by id. */
    var rooms: map<RoomId, Room>

    /** Every room is stored under its own id, so distinct keys hold distinct rooms. */
    ghost predicate Valid()
      reads this
    {
      forall k | k in rooms :: rooms[k].id == k
    }

    /** What the lobby shows: each room's state, by id. */
    function View(): map<RoomId, RoomState>
      reads this, rooms.Values
    {
      map k | k in rooms :: rooms[k].State()
    }

    constructor ()
      ensures Valid() && rooms == map[]
    {
      rooms := map[];
    }

    /** `getRoom`: the room stored under the key, undefined for any other key. */
    function GetRoom(key: string): (r: Option<Room>)
      reads this
      ensures r.Some? <==> key in rooms
      ensures r.Some? ==> r.value == rooms[key]
    {
      if key in rooms then Some(rooms[key]) else None
    }

    /** `addRoom`: a new room, with its defaults, replaces whatever was stored under its id. */
    method AddRoom(id: RoomId, name: Option<string>, image: Option<string>, messages: Option<seq<Message>>)
      requires Valid()
      modifies this
      ensures Valid()
      ensures View() == old(View())[id := InitialState(id, name, image, messages)]
      ensures id in rooms && fresh(rooms[id])
      ensures forall k | k in old(rooms) && k != id :: k in rooms && rooms[k] == old(rooms)[k]
      ensures rooms.Keys == old(rooms.Keys) + {id}
    {
      var room := new Room(id, name, image, messages);
      rooms := rooms[id := room];
    }

    /** The change `refreshLobby` makes to a room the lobby already has: the listed name and image. */
    method Update(id: RoomId, name: Option<string>, image: Option<string>)
      requires Valid() && id in rooms
      modifies rooms[id]
      ensures View() == old(View())[id := old(View())[id].(name := name, image := image)]
    {
      var room := rooms[id];
      room.name := name;
      room.image := image;
      forall k | k in rooms ensures View()[k] == old(View())[id := old(View())[id].(name := name, image := image)][k] {
        if k != id { assert rooms[k] != room; }
      }
    }

    /**
     * The `refreshLobby` loop over a listing: rooms already known keep their object and messages and get the
     * listed name and image; unknown ids get a new room. The result is `MergeListing` of the old view.
     */
    method Refresh(listing: seq<RoomListing>)
      requires Valid()
      modifies this, rooms.Values
      ensures Valid()
      ensures View() == MergeListing(old(View()), listing)
      ensures forall k | k in old(rooms) :: k in rooms && rooms[k] == old(rooms)[k]
    {
      ghost var view0 := View();
      ghost var rooms0 := rooms;
      for i := 0 to |listing|
        invariant Valid()
        invariant View() == MergeListing(view0, listing[..i])
        invariant forall k | k in rooms0 :: k in rooms && rooms[k] == rooms0[k]
        invariant forall k | k in rooms && k !in rooms0 :: fresh(rooms[k])
      {
        var l := listing[i];
        assert listing[..i + 1][..i] == listing[..i];
        ghost var view := View();
        if l.id in rooms {
          assert l.id in rooms0 ==> rooms[l.id] in rooms0.Values;
          Update(l.id, l.name, l.image);
        } else {
          AddRoom(l.id, l.name, l.image, l.messages);
        }
        assert View() == MergeOne(view, l);
      }
      assert listing[..|listing|] == listing;
    }

    /** The room a chat route selects: the one stored under the route's room key, if any. */
    function RouteRoom(hash: string): (r: Option<Room>)
      reads this
      ensures r.Some? <==> RouteOf(hash).ChatPage? && PropertyKey(RouteOf(hash).roomKey) in rooms
      ensures r.Some? ==> r.value == rooms[PropertyKey(RouteOf(hash).roomKey)]
    {
      match RouteOf(hash)
      case ChatPage(key) => GetRoom(PropertyKey(key))
      case _ => None
    }
  }

  /** The views `renderRoute` can show; a chat page carries the third segment of the hash. */
  datatype Page = LobbyPage | ChatPage(roomKey: Option<string>) | ProfilePage | BlankPage

  /**
   * `renderRoute`'s choice by the second `/`-separated segment of `location.hash`. A room key taken from
   * the hash never contains `/`, and a hash without `/`, or whose second segment is none of "", "chat"
   * and "profile", shows the empty page.
   */
  function RouteOf(hash: string): (page: Page)
    ensures page.ChatPage? && page.roomKey.Some? ==> Avoids(page.roomKey.value, "/")
    ensures Avoids(hash, "/") ==> page == BlankPage
    ensures Nth(Split(hash, "/"), 1) !in {Some(""), Some("chat"), Some("profile")} ==> page == BlankPage
  {
    SplitPieces(hash, "/");
    var urlArr := Split(hash, "/");
    var second := Nth(urlArr, 1);
    if second == Some("") then LobbyPage
    else if second == Some("chat") then ChatPage(Nth(urlArr, 2))
    else if second == Some("profile") then ProfilePage
    else BlankPage
  }

  /** The hash each page is reached by: the links the client renders, and the empty hash. */
  function HashOf(page: Page): string {
    match page
    case LobbyPage => "#/"
    case ChatPage(None) => "#/chat"
    case ChatPage(Some(id)) => "#/chat/" + id
    case ProfilePage => "#/profile"
    case BlankPage => ""
  }

  /** `#/chat/<id>` leads to the chat page of that room, and `#/chat` to the chat page without one. */
  lemma RouteOfChat(id: RoomId)
    requires Avoids(id, "/")
    ensures RouteOf("#/chat/" + id) == ChatPage(Some(id))
    ensures RouteOf("#/chat") == ChatPage(None)
  {
    assert "#/chat/" + id == "#" + "/" + ("chat" + "/" + id);
    SplitCut("#", "/", "chat" + "/" + id);
    SplitCut("chat", "/", id);
    SplitPlain(id, "/");
    assert Split("#/chat/" + id, "/") == ["#", "chat", id];
    assert "#/chat" == "#" + "/" + "chat";
    SplitCut("#", "/", "chat");
    SplitPlain("chat", "/");
    assert Split("#/chat", "/") == ["#", "chat"];
  }

  lemma RouteOfLobbyHash()
    ensures RouteOf("#/") == LobbyPage
  {
    assert "#/" == "#" + "/" + "";
    SplitCut("#", "/", "");
    SplitPlain("", "/");
  }

  lemma RouteOfProfileHash()
    ensures RouteOf("#/profile") == ProfilePage
  {
    assert "#/profile" == "#" + "/" + "profile";
    SplitCut("#", "/", "profile");
    SplitPlain("profile", "/");
    assert Split("#/profile", "/") == ["#", "profile"];
  }

  /**
   * Every page is shown for the hash it is reached by: `renderRoute` inverts `HashOf` on every page whose
   * room key, if any, has no `/` (exactly the keys `RouteOf` can produce).
   */
  lemma RouteOfHashOf(page: Page)
    requires page.ChatPage? && page.roomKey.Some? ==> Avoids(page.roomKey.value, "/")
    ensures RouteOf(HashOf(page)) == page
  {
    match page
    case LobbyPage => RouteOfLobbyHash();
    case ChatPage(None) => RouteOfChat("");
    case ChatPage(Some(id)) => RouteOfChat(id);
    case ProfilePage => RouteOfProfileHash();
    case BlankPage => SplitPlain("", "/");
  }
}
