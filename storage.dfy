/**
 * The part of `Database.js` that holds logic of its own: the field checks of `addRoom` and
 * `addConversation`, and the scan of `getLastConversation` that backs history paging.
 * The MongoDB collections are sequences in insertion order; the driver's generated `_id` is a
 * value the caller supplies.
 */
module Storage {
  import opened Types

  /** A document of the `chatrooms` collection. */
  datatype RoomEntry = RoomEntry(id: RoomId, name: Option<string>, image: Option<string>)

  /** The room object handed to `addRoom`; a field is `None` when the object has no such own property. */
  datatype RoomDoc = RoomDoc(name: Option<string>, image: Option<string>, id: Option<RoomId>)

  /** The conversation object handed to `addConversation`; a field is `None` when the object lacks it. */
  datatype ConversationDoc = ConversationDoc(roomId: Option<RoomId>, timestamp: Option<int>, messages: Option<seq<Message>>)

  /** The `Error`s the insert operations reject with. */
  datatype DbError = InvalidName | InvalidRoomId | InvalidTimestamp | InvalidMessages

  datatype Result<T> = Ok(value: T) | Err(error: DbError)

  /** What `getLastConversation` resolves: a conversation, `null` or `undefined`. */
  datatype History = Found(conversation: Conversation) | Null | Undefined

  /** The entry `addRoom` stores: `name` and `image`, and `_id` when the room has one (else the driver's `newId`). */
  function RoomEntryOf(room: RoomDoc, newId: RoomId): RoomEntry {
    RoomEntry(if room.id.Some? then room.id.value else newId, room.name, room.image)
  }

  /** `addRoom` with the rejection ending the operation: a room without `name` is refused and nothing is stored. */
  function InsertRoom(rooms: seq<RoomEntry>, room: RoomDoc, newId: RoomId): (r: (seq<RoomEntry>, Result<RoomEntry>))
    ensures r.1.Err? <==> room.name.None?
    ensures r.1.Err? ==> r.1.error == InvalidName && r.0 == rooms
    ensures r.1.Ok? ==> r.0 == rooms + [r.1.value]
    ensures r.1.Ok? ==> r.1.value.name == room.name && r.1.value.image == room.image
    ensures r.1.Ok? && room.id.Some? ==> r.1.value.id == room.id.value
  {
    if room.name.None? then (rooms, Err(InvalidName))
    else var entry := RoomEntryOf(room, newId); (rooms + [entry], Ok(entry))
  }

  /** `addRoom` as written: `reject` does not return, so the entry is inserted even when the promise rejects. */
  function InsertRoomAsWritten(rooms: seq<RoomEntry>, room: RoomDoc, newId: RoomId): (r: (seq<RoomEntry>, Result<RoomEntry>))
    ensures r.0 == rooms + [RoomEntryOf(room, newId)]
    ensures r.1 == InsertRoom(rooms, room, newId).1
    ensures r.1.Err? ==> r.0 != InsertRoom(rooms, room, newId).0
  {
    var entry := RoomEntryOf(room, newId);
    (rooms + [entry], if room.name.None? then Err(InvalidName) else Ok(entry))
  }

  /** As written, a room without a name is refused to the caller and still stored. */
  lemma RejectedRoomStillStored(rooms: seq<RoomEntry>, image: Option<string>, newId: RoomId)
    ensures var r := InsertRoomAsWritten(rooms, RoomDoc(None, image, None), newId);
            r.1 == Err(InvalidName) && r.0 == rooms + [RoomEntry(newId, None, image)]
  {
  }

  /** The first missing field, in the order `addConversation` checks them. */
  function MissingField(doc: ConversationDoc): Option<DbError> {
    if doc.roomId.None? then Some(InvalidRoomId)
    else if doc.timestamp.None? then Some(InvalidTimestamp)
    else if doc.messages.None? then Some(InvalidMessages)
    else None
  }

  /** `addConversation` with the rejection ending the operation: an incomplete conversation is refused and not stored. */
  function InsertConversation(conversations: seq<Conversation>, doc: ConversationDoc): (r: (seq<Conversation>, Result<Conversation>))
    ensures r.1.Ok? <==> doc.roomId.Some? && doc.timestamp.Some? && doc.messages.Some?
    ensures r.1.Ok? ==> r.1.value == Conversation(doc.roomId.value, doc.timestamp.value, doc.messages.value)
    ensures r.1.Ok? ==> r.0 == conversations + [r.1.value]
    ensures r.1.Err? ==> r.0 == conversations
    ensures doc.roomId.None? ==> r.1 == Err(InvalidRoomId)
    ensures doc.roomId.Some? && doc.timestamp.None? ==> r.1 == Err(InvalidTimestamp)
    ensures doc.roomId.Some? && doc.timestamp.Some? && doc.messages.None? ==> r.1 == Err(InvalidMessages)
  {
    match MissingField(doc)
    case Some(e) => (conversations, Err(e))
    case None =>
      var c := Conversation(doc.roomId.value, doc.timestamp.value, doc.messages.value);
      (conversations + [c], Ok(c))
  }

  /** `addConversation` as written: the collection receives the object whether or not the promise rejects. */
  function InsertConversationAsWritten(docs: seq<ConversationDoc>, doc: ConversationDoc): (r: (seq<ConversationDoc>, Result<Conversation>))
    ensures r.0 == docs + [doc]
    ensures r.1.Err? <==> MissingField(doc).Some?
    ensures r.1.Err? ==> r.1.error == MissingField(doc).value
    ensures forall conversations :: r.1 == InsertConversation(conversations, doc).1
  {
    (docs + [doc],
     match MissingField(doc)
     case Some(e) => Err(e)
     case None => Ok(Conversation(doc.roomId.value, doc.timestamp.value, doc.messages.value)))
  }

  /** As written, a conversation without a timestamp is refused to the caller and still stored. */
  lemma RejectedConversationStillStored(docs: seq<ConversationDoc>, roomId: RoomId, messages: seq<Message>)
    ensures var doc := ConversationDoc(Some(roomId), None, Some(messages));
            var r := InsertConversationAsWritten(docs, doc);
            r.1 == Err(InvalidTimestamp) && r.0 == docs + [doc]
  {
  }

  /** The cursor `getLastConversation` compares against: a falsy `before` (absent or 0) means now. */
  function CursorTime(before: Option<int>, now: int): (time: int)
    ensures before.None? ==> time == now
    ensures before.Some? ==> time == (if before.value == 0 then now else before.value)
  {
    if before.None? || before.value == 0 then now else before.value
  }

  /** `find({room_id})`: the room's conversations, in insertion order. */
  function RoomConversations(conversations: seq<Conversation>, roomId: RoomId): (items: seq<Conversation>)
    ensures |items| <= |conversations|
    ensures forall c | c in items :: c in conversations && c.roomId == roomId
    ensures forall c | c in conversations && c.roomId == roomId :: c in items
  {
    if conversations == [] then []
    else
      var last := conversations[|conversations| - 1];
      RoomConversations(conversations[..|conversations| - 1], roomId) + (if last.roomId == roomId then [last] else [])
  }

  /**
   * The index the `forEach` scan ends with: an item replaces the one kept so far only when it is below
   * the cursor and strictly newer, so among equal timestamps the first in scan order stays.
   */
  function LatestIndex(items: seq<Conversation>, time: int): (k: Option<nat>)
    ensures k.Some? ==> k.value < |items| && items[k.value].timestamp < time
  {
    if items == [] then None
    else
      var prev := LatestIndex(items[..|items| - 1], time);
      var last := |items| - 1;
      if items[last].timestamp < time && (prev.None? || items[prev.value].timestamp < items[last].timestamp)
      then Some(last)
      else prev
  }

  /** `items[k]` is below the cursor, no item below the cursor is newer, and no earlier one is as new. */
  predicate IsLatestBefore(items: seq<Conversation>, time: int, k: nat) {
    && k < |items|
    && items[k].timestamp < time
    && (forall j | 0 <= j < |items| && items[j].timestamp < time :: items[j].timestamp <= items[k].timestamp)
    && (forall j | 0 <= j < k && items[j].timestamp < time :: items[j].timestamp < items[k].timestamp)
  }

  /** Nothing in `items` is below the cursor. */
  predicate NoneBefore(items: seq<Conversation>, time: int) {
    forall j | 0 <= j < |items| :: items[j].timestamp >= time
  }

  lemma {:induction false} LatestIndexSound(items: seq<Conversation>, time: int)
    ensures LatestIndex(items, time).None? ==> NoneBefore(items, time)
    ensures LatestIndex(items, time).Some? ==> IsLatestBefore(items, time, LatestIndex(items, time).value)
  {
    if items != [] {
      var init := items[..|items| - 1];
      var last := |items| - 1;
      LatestIndexSound(init, time);
      assert forall j | 0 <= j < last :: items[j] == init[j];
    }
  }

  /** At most one index is the latest before the cursor. */
  lemma LatestUnique(items: seq<Conversation>, time: int, k1: nat, k2: nat)
    requires IsLatestBefore(items, time, k1) && IsLatestBefore(items, time, k2)
    ensures k1 == k2
  {
  }

  /** The scan finds nothing exactly when nothing is below the cursor, and otherwise exactly the latest. */
  lemma LatestIndexSpec(items: seq<Conversation>, time: int, k: nat)
    ensures LatestIndex(items, time).None? <==> NoneBefore(items, time)
    ensures LatestIndex(items, time) == Some(k) <==> IsLatestBefore(items, time, k)
  {
    LatestIndexSound(items, time);
    if IsLatestBefore(items, time, k) {
      assert !NoneBefore(items, time);
      LatestUnique(items, time, k, LatestIndex(items, time).value);
    }
  }

  /**
   * What `getLastConversation` resolves for a room and a cursor: null only for a room without
   * conversations, and a found conversation is one of the room's, below the cursor.
   */
  function LastConversation(conversations: seq<Conversation>, roomId: RoomId, time: int): (r: History)
    ensures r.Null? ==> forall c | c in conversations :: c.roomId != roomId
    ensures r.Found? ==> r.conversation in conversations && r.conversation.roomId == roomId &&
                         r.conversation.timestamp < time
  {
    var items := RoomConversations(conversations, roomId);
    if |items| == 0 then Null
    else match LatestIndex(items, time)
      case None => Undefined
      case Some(k) => Found(items[k])
  }

  /**
   * `getLastConversation` resolves null exactly when the room has no conversation, undefined exactly when
   * it has some but none below the cursor, and otherwise one of the room's conversations below the cursor
   * that no other of them below the cursor is newer than.
   */
  lemma LastConversationSpec(conversations: seq<Conversation>, roomId: RoomId, time: int)
    ensures var r := LastConversation(conversations, roomId, time);
            && (r.Null? <==> forall c | c in conversations :: c.roomId != roomId)
            && (r.Undefined? <==> (exists c | c in conversations :: c.roomId == roomId) &&
                                  forall c | c in conversations && c.roomId == roomId :: c.timestamp >= time)
            && (r.Found? ==> r.conversation in conversations && r.conversation.roomId == roomId &&
                             r.conversation.timestamp < time)
            && (r.Found? ==> forall c | c in conversations && c.roomId == roomId && c.timestamp < time ::
                               c.timestamp <= r.conversation.timestamp)
  {
    var items := RoomConversations(conversations, roomId);
    LatestIndexSound(items, time);
    if |items| > 0 {
      assert items[0] in items;
    }
    forall c | c in conversations && c.roomId == roomId
      ensures exists j | 0 <= j < |items| :: items[j] == c
    {
      assert c in items;
    }
  }

  /** How many items are below the cursor. */
  function CountBelow(items: seq<Conversation>, time: int): nat {
    if items == [] then 0
    else CountBelow(items[..|items| - 1], time) + (if items[|items| - 1].timestamp < time then 1 else 0)
  }

  /** Moving the cursor back past an item's timestamp leaves strictly fewer items below it. */
  lemma {:induction false} CountBelowDrops(items: seq<Conversation>, time: int, k: nat)
    requires k < |items| && items[k].timestamp < time
    ensures CountBelow(items, items[k].timestamp) < CountBelow(items, time)
  {
    CountBelowDropsFrom(items, items[k].timestamp, time, k);
  }

  lemma {:induction false} CountBelowMono(items: seq<Conversation>, lo: int, hi: int)
    requires lo <= hi
    ensures CountBelow(items, lo) <= CountBelow(items, hi)
  {
    if items != [] {
      CountBelowMono(items[..|items| - 1], lo, hi);
    }
  }

  lemma {:induction false} CountBelowDropsFrom(items: seq<Conversation>, lo: int, hi: int, k: nat)
    requires k < |items| && lo <= items[k].timestamp < hi
    ensures CountBelow(items, lo) < CountBelow(items, hi)
  {
    var init := items[..|items| - 1];
    if k == |items| - 1 {
      CountBelowMono(init, lo, hi);
    } else {
      assert init[k] == items[k];
      CountBelowDropsFrom(init, lo, hi, k);
    }
  }

  /**
   * The conversations a client sees when it pages back from `time`, each request using the previous
   * answer's timestamp as its cursor, until the answer is empty. The timestamp is used as the cursor
   * directly: timestamps are taken to be positive, as `Date.now()` values are, since `CursorTime` would
   * turn a timestamp of 0 into "now" and start the paging over.
   */
  function Pages(items: seq<Conversation>, time: int): seq<Conversation>
    decreases CountBelow(items, time)
  {
    match LatestIndex(items, time)
    case None => []
    case Some(k) =>
      LatestIndexSound(items, time);
      CountBelowDrops(items, time, k);
      [items[k]] + Pages(items, items[k].timestamp)
  }

  /** One step of paging: the latest item below the cursor, then the pages from its timestamp. */
  lemma PagesStep(items: seq<Conversation>, time: int, k: nat)
    requires LatestIndex(items, time) == Some(k)
    ensures IsLatestBefore(items, time, k)
    ensures CountBelow(items, items[k].timestamp) < CountBelow(items, time)
    ensures Pages(items, time) == [items[k]] + Pages(items, items[k].timestamp)
  {
    LatestIndexSound(items, time);
    CountBelowDrops(items, time, k);
  }

  /** Every page is one of the items and lies below the cursor. */
  lemma {:induction false} PagesBelow(items: seq<Conversation>, time: int)
    ensures forall i | 0 <= i < |Pages(items, time)| :: Pages(items, time)[i] in items && Pages(items, time)[i].timestamp < time
    decreases CountBelow(items, time)
  {
    var latest := LatestIndex(items, time);
    if latest.Some? {
      var k := latest.value;
      PagesStep(items, time, k);
      PagesBelow(items, items[k].timestamp);
      var rest := Pages(items, items[k].timestamp);
      var pages := Pages(items, time);
      forall i | 0 <= i < |pages| ensures pages[i] in items && pages[i].timestamp < time {
        if i > 0 { assert pages[i] == rest[i - 1]; }
      }
    }
  }

  /** Paging walks strictly backwards: each page is older than the one before. */
  lemma {:induction false} PagesDecreasing(items: seq<Conversation>, time: int)
    ensures forall i, j | 0 <= i < j < |Pages(items, time)| :: Pages(items, time)[j].timestamp < Pages(items, time)[i].timestamp
    decreases CountBelow(items, time)
  {
    var latest := LatestIndex(items, time);
    if latest.Some? {
      var k := latest.value;
      PagesStep(items, time, k);
      PagesDecreasing(items, items[k].timestamp);
      PagesBelow(items, items[k].timestamp);
      var rest := Pages(items, items[k].timestamp);
      var pages := Pages(items, time);
      forall i, j | 0 <= i < j < |pages| ensures pages[j].timestamp < pages[i].timestamp {
        assert pages[j] == rest[j - 1];
        if i > 0 { assert pages[i] == rest[i - 1]; }
      }
    }
  }

  /** Paging skips no timestamp: every timestamp below the cursor is some page's. */
  lemma {:induction false} PagesCover(items: seq<Conversation>, time: int)
    ensures forall j | 0 <= j < |items| && items[j].timestamp < time ::
              exists i | 0 <= i < |Pages(items, time)| :: Pages(items, time)[i].timestamp == items[j].timestamp
    decreases CountBelow(items, time)
  {
    var latest := LatestIndex(items, time);
    if latest.None? {
      LatestIndexSound(items, time);
    } else {
      var k := latest.value;
      var c := items[k];
      PagesStep(items, time, k);
      PagesCover(items, c.timestamp);
      var rest := Pages(items, c.timestamp);
      var pages := Pages(items, time);
      forall j | 0 <= j < |items| && items[j].timestamp < time
        ensures exists i | 0 <= i < |pages| :: pages[i].timestamp == items[j].timestamp
      {
        if items[j].timestamp == c.timestamp {
          assert pages[0].timestamp == items[j].timestamp;
        } else {
          var i :| 0 <= i < |rest| && rest[i].timestamp == items[j].timestamp;
          assert pages[i + 1] == rest[i];
        }
      }
    }
  }

  class Database {
    /** The `chatrooms` collection. */
    var rooms: seq<RoomEntry>
    /** The `conversations` collection. */
    var conversations: seq<Conversation>

    constructor ()
      ensures rooms == [] && conversations == []
    {
      rooms := [];
      conversations := [];
    }

    /** `addRoom`. */
    method AddRoom(room: RoomDoc, newId: RoomId) returns (result: Result<RoomEntry>)
      modifies this
      ensures (rooms, result) == InsertRoom(old(rooms), room, newId)
      ensures conversations == old(conversations)
    {
      rooms, result := InsertRoom(rooms, room, newId).0, InsertRoom(rooms, room, newId).1;
    }

    /** `addConversation`. */
    method AddConversation(conversation: ConversationDoc) returns (result: Result<Conversation>)
      modifies this
      ensures (conversations, result) == InsertConversation(old(conversations), conversation)
      ensures rooms == old(rooms)
    {
      var r := InsertConversation(conversations, conversation);
      conversations, result := r.0, r.1;
    }

    /** `getLastConversation`: the scan over the room's conversations, with the cursor defaulting to `now`. */
    method GetLastConversation(roomId: RoomId, before: Option<int>, now: int) returns (r: History)
      ensures r == LastConversation(conversations, roomId, CursorTime(before, now))
      ensures r.Found? ==> r.conversation in conversations && r.conversation.roomId == roomId
      ensures r.Found? ==> r.conversation.timestamp < CursorTime(before, now)
      ensures r.Found? ==> forall c | c in conversations && c.roomId == roomId && c.timestamp < CursorTime(before, now) ::
                             c.timestamp <= r.conversation.timestamp
      ensures r.Null? <==> forall c | c in conversations :: c.roomId != roomId
    {
      var time := before;
      var t := if time.None? || time.value == 0 then now else time.value;
      var items := RoomConversations(conversations, roomId);
      if |items| <= 0 {
        r := Null;
      } else {
        var ret: Option<Conversation> := None;
        ghost var kept: Option<nat> := None;
        for i := 0 to |items|
          invariant kept == LatestIndex(items[..i], t)
          invariant kept.Some? ==> kept.value < i && ret == Some(items[kept.value])
          invariant kept.None? ==> ret == None
        {
          assert items[..i + 1][..i] == items[..i];
          var item := items[i];
          if item.timestamp < t {
            if ret.None? || ret.value.timestamp < item.timestamp {
              ret := Some(item);
              kept := Some(i);
            }
          }
        }
        assert items[..|items|] == items;
        r := if ret.Some? then Found(ret.value) else Undefined;
      }
      LastConversationSpec(conversations, roomId, t);
    }
  }
}
