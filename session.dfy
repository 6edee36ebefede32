/**
 * The per-browser session the script keeps between reruns (`st.session_state`) and the steps
 * of `main` and `new_chat` that change it.
 */
module Session {
  import opened Wrappers
  import opened Conversations
  import Clock
  import Chat
  import HistoryStore
  import ContentExtractor

  class ChatSession {
    var currentChatId: string
    var conversation: seq<Exchange>
    /** Suffix of the input widget's key; bumping it gives a new, empty input box. */
    var counter: nat
    /** The text of the last upload that produced any; used as the prompt's context. */
    var fileContent: Option<string>
    /** The histories file on disk. */
    const store: HistoryStore.HistoryFile

    /** The histories file holds this session's conversation under its chat identifier. */
    predicate Saved()
      reads this, store
    {
      var loaded := HistoryStore.LoadChatHistory(store.disk);
      loaded.Some? && currentChatId in loaded.value && loaded.value[currentChatId].conversation == conversation
    }

    /** A first run's session: a chat identifier from the clock, no conversation, no file. */
    constructor (now: Clock.Instant, store: HistoryStore.HistoryFile)
      ensures currentChatId == Clock.FormatChatId(now)
      ensures conversation == [] && counter == 0 && fileContent == None
      ensures this.store == store
    {
      currentChatId := Clock.FormatChatId(now);
      conversation := [];
      counter := 0;
      fileContent := None;
      this.store := store;
    }

    /** `new_chat()`: an identifier made from the clock reading, an empty conversation and the counter back to 0. */
    method NewChat(now: Clock.Instant)
      modifies this
      ensures currentChatId == Clock.FormatChatId(now)
      ensures conversation == [] && counter == 0
      ensures fileContent == old(fileContent)
    {
      currentChatId := Clock.FormatChatId(now);
      conversation := [];
      counter := 0;
    }

    /** The "Start New Chat" button: `new_chat()`, then the uploaded file's text is dropped. */
    method StartNewChat(now: Clock.Instant)
      modifies this
      ensures currentChatId == Clock.FormatChatId(now)
      ensures conversation == [] && counter == 0
      ensures fileContent == None
    {
      NewChat(now);
      fileContent := None;
    }

    /** An upload is read; its text becomes the context only when it is truthy. */
    method AttachFile(upload: ContentExtractor.Upload)
      modifies this
      ensures var content := ContentExtractor.FileContent(upload);
        fileContent == if Truthy(content) then content else old(fileContent)
      ensures currentChatId == old(currentChatId) && conversation == old(conversation)
      ensures counter == old(counter)
    {
      var content := ContentExtractor.ReadFileContent(upload);
      if content.Some? && content.value != "" {
        fileContent := content;
      }
    }

    /** A sidebar button: the saved chat `chatId` becomes the current one; the counter stays. */
    method OpenChat(chatId: string)
      requires HistoryStore.LoadChatHistory(store.disk).Some?
      requires chatId in HistoryStore.LoadChatHistory(store.disk).value
      modifies this
      ensures currentChatId == chatId
      ensures conversation == HistoryStore.LoadChatHistory(store.disk).value[chatId].conversation
      ensures counter == old(counter) && fileContent == old(fileContent)
      ensures Saved()
    {
      var histories := HistoryStore.LoadChatHistory(store.disk).value;
      currentChatId := chatId;
      conversation := histories[chatId].conversation;
    }

    /**
     * One submission: a non-empty input is answered (with the file's text as context), the
     * exchange is appended, the conversation is saved and the counter is bumped. `generate`
     * stands for the model, `writable` for whether writing the histories file succeeds.
     */
    method Submit(userInput: string, generate: string -> Option<string>, now: Clock.Instant, writable: bool)
      modifies this, store
      ensures currentChatId == old(currentChatId) && fileContent == old(fileContent)
      ensures userInput == "" ==>
        conversation == old(conversation) && counter == old(counter) && store.disk == old(store.disk)
      ensures userInput != "" ==>
        && conversation == old(conversation) + [Exchange(userInput, Chat.Chatbot(userInput, fileContent, generate))]
        && counter == old(counter) + 1
        && store.disk == HistoryStore.AfterSave(old(store.disk), currentChatId, conversation, None, now, writable)
      ensures userInput != "" && writable && !old(store.disk).Unreadable? ==> Saved()
    {
      if userInput != "" {
        var context := fileContent;
        var response := Chat.Chatbot(userInput, context, generate);
        conversation := conversation + [Exchange(userInput, response)];
        store.SaveChatHistory(currentChatId, conversation, None, now, writable);
        counter := counter + 1;
      }
    }
  }
}
