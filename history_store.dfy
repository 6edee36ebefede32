/**
 * `load_chat_history` and `save_chat_history`: the chat histories file, seen as the state of
 * the disk. Reading it yields a table from chat identifier to saved entry; saving rewrites the
 * whole table with one entry replaced or added.
 */
module HistoryStore {
  import opened Wrappers
  import opened Conversations
  import Clock
  import Titles

  type Histories = map<string, Entry>

  /**
   * What `open` and `json.load` find: no file, text that is not JSON, a file that cannot be
   * read for another reason (an error neither `except` clause of the loader catches), or the
   * stored table.
   */
  datatype Disk = Missing | Malformed | Unreadable | Stored(histories: Histories)

  /** `load_chat_history()`; `None` where the loader's exception escapes to its caller. */
  function LoadChatHistory(disk: Disk): (loaded: Option<Histories>)
    ensures loaded.None? <==> disk.Unreadable?
    ensures disk.Missing? || disk.Malformed? ==> loaded == Some(map[])
    ensures disk.Stored? ==> loaded == Some(disk.histories)
  {
    match disk
    case Missing => Some(map[])
    case Malformed => Some(map[])
    case Unreadable => None
    case Stored(histories) => Some(histories)
  }

  /** `title or generate_chat_title(conversation)`: a truthy caller title wins. */
  function ChosenTitle(title: Option<string>, conversation: seq<Exchange>, now: Clock.Instant): (chosen: string)
    ensures Truthy(title) ==> chosen == title.value
    ensures !Truthy(title) && conversation != [] ==> IsDerivedTitle(conversation[0].user, chosen)
    ensures !Truthy(title) && conversation == [] ==> chosen == "New Chat " + Clock.FormatDate(now)
  {
    if Truthy(title) then title.value else Titles.GenerateChatTitle(conversation, now)
  }

  /** `chosen` is a title body for `message` followed by the ellipsis. */
  predicate IsDerivedTitle(message: string, chosen: string) {
    && |chosen| >= 3
    && chosen[|chosen| - 3..] == Titles.Ellipsis
    && Titles.IsTitleBody(message, chosen[..|chosen| - 3])
  }

  /** The record `save_chat_history` writes for a chat. */
  function SavedEntry(conversation: seq<Exchange>, title: Option<string>, now: Clock.Instant): (entry: Entry)
    ensures entry.conversation == conversation
    ensures entry.timestamp == Clock.FormatTimestamp(now)
    ensures entry.title == ChosenTitle(title, conversation, now)
  {
    Entry(ChosenTitle(title, conversation, now), Clock.FormatTimestamp(now), conversation)
  }

  /**
   * The disk after `save_chat_history(chatId, conversation, title)` at time `now`; `writable`
   * says whether writing the file succeeds. A failed load or write leaves the disk as it was.
   */
  function AfterSave(disk: Disk, chatId: string, conversation: seq<Exchange>, title: Option<string>,
                     now: Clock.Instant, writable: bool): (after: Disk)
    ensures LoadChatHistory(disk).None? || !writable ==> after == disk
    ensures LoadChatHistory(disk).Some? && writable ==>
      && after.Stored?
      && chatId in after.histories
      && after.histories[chatId] == SavedEntry(conversation, title, now)
      && after.histories.Keys == LoadChatHistory(disk).value.Keys + {chatId}
      && |after.histories| <= |LoadChatHistory(disk).value| + 1
      && (forall k :: k in after.histories && k != chatId ==> after.histories[k] == LoadChatHistory(disk).value[k])
  {
    match LoadChatHistory(disk)
    case None => disk
    case Some(histories) =>
      if writable then Stored(histories[chatId := SavedEntry(conversation, title, now)]) else disk
  }

  /** A successful save can be read back: the entry under `chatId` holds exactly `conversation`. */
  lemma SaveThenLoad(disk: Disk, chatId: string, conversation: seq<Exchange>, title: Option<string>,
                     now: Clock.Instant)
    requires !disk.Unreadable?
    ensures var loaded := LoadChatHistory(AfterSave(disk, chatId, conversation, title, now, true));
      && loaded.Some? && chatId in loaded.value
      && loaded.value[chatId].conversation == conversation
      && loaded.value[chatId].timestamp == Clock.FormatTimestamp(now)
  {
  }

  /** Saving over an unreadable-as-JSON or missing file keeps only the chat just saved. */
  lemma SaveDiscardsUnparsable(disk: Disk, chatId: string, conversation: seq<Exchange>,
                               title: Option<string>, now: Clock.Instant)
    requires disk.Missing? || disk.Malformed?
    ensures AfterSave(disk, chatId, conversation, title, now, true)
         == Stored(map[chatId := SavedEntry(conversation, title, now)])
  {
  }

  /** Saving the same chat twice leaves what the second save alone would leave (last write wins). */
  lemma SaveTwice(disk: Disk, chatId: string, c1: seq<Exchange>, t1: Option<string>, now1: Clock.Instant,
                  c2: seq<Exchange>, t2: Option<string>, now2: Clock.Instant)
    ensures AfterSave(AfterSave(disk, chatId, c1, t1, now1, true), chatId, c2, t2, now2, true)
         == AfterSave(disk, chatId, c2, t2, now2, true)
  {
    match LoadChatHistory(disk)
    case None =>
    case Some(histories) =>
      var e1, e2 := SavedEntry(c1, t1, now1), SavedEntry(c2, t2, now2);
      assert histories[chatId := e1][chatId := e2] == histories[chatId := e2];
  }

  /** The histories file; `disk` is what it currently holds. */
  class HistoryFile {
    var disk: Disk

    constructor (disk: Disk)
      ensures this.disk == disk
    {
      this.disk := disk;
    }

    /**
     * `save_chat_history`: load the table, set the entry under `chatId`, write the table back.
     * Any exception is reported and swallowed, leaving the file as it was.
     */
    method SaveChatHistory(chatId: string, conversation: seq<Exchange>, title: Option<string>,
                           now: Clock.Instant, writable: bool)
      modifies this
      ensures disk == AfterSave(old(disk), chatId, conversation, title, now, writable)
    {
      var loaded := LoadChatHistory(disk);
      if loaded.Some? {
        var histories := loaded.value;
        histories := histories[chatId := SavedEntry(conversation, title, now)];
        if writable {
          disk := Stored(histories);
        }
      }
    }
  }
}
