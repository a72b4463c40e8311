/**
 * The chat-history provider: an in-memory list of the user's chat records,
 * reconciled with the result of every call to the hosted `chat_history` table,
 * plus the `loading` flag and the last `error` message.
 */
module ChatHistory {
  import opened Wrappers

  /** One message of a transcript; the provider never looks inside one. */
  type Message = string

  /** An instant as the database orders `updated_at`; the ISO text itself is not modelled. */
  type Timestamp = int

  /** A row of the `chat_history` table. */
  datatype ChatRecord = ChatRecord(
    id: string,
    userId: string,
    title: string,
    messages: seq<Message>,
    createdAt: Timestamp,
    updatedAt: Timestamp)

  /** The selects the provider issues: all rows of one user, or those whose title is ILIKE a pattern;
      both ordered by `updated_at`, newest first. */
  datatype Query = OwnedBy(userId: string) | TitleLike(userId: string, pattern: string)

  /** The row the provider inserts. */
  datatype NewChat = NewChat(userId: string, title: string, messages: seq<Message>)

  /** The update the provider issues against one id. */
  datatype ChatUpdate = ChatUpdate(id: string, messages: seq<Message>, updatedAt: Timestamp)

  /** The ILIKE pattern a search sends: the query between two `%`, with nothing escaped. */
  function SearchPattern(query: string): (p: string)
    ensures |p| == |query| + 2 && p[0] == '%' && p[|p| - 1] == '%' && p[1..|p| - 1] == query
  {
    "%" + query + "%"
  }

  /** `data || []`: a null result reads as an empty list. */
  function OrEmpty(data: Option<seq<ChatRecord>>): seq<ChatRecord>
  {
    match data
    case Some(rows) => rows
    case None => []
  }

  /** `chatHistory.map(chat => chat.id === id ? data : chat)` */
  function ReplaceById(s: seq<ChatRecord>, id: string, data: ChatRecord): (r: seq<ChatRecord>)
    ensures |r| == |s|
    ensures forall i :: 0 <= i < |s| && s[i].id == id ==> r[i] == data
    ensures forall i :: 0 <= i < |s| && s[i].id != id ==> r[i] == s[i]
  {
    if s == [] then []
    else [if s[0].id == id then data else s[0]] + ReplaceById(s[1..], id, data)
  }

  /** `chatHistory.filter(chat => chat.id !== id)` */
  function RemoveById(s: seq<ChatRecord>, id: string): (r: seq<ChatRecord>)
    ensures |r| <= |s|
    ensures forall c :: c in r <==> c in s && c.id != id
  {
    if s == [] then []
    else (if s[0].id == id then [] else [s[0]]) + RemoveById(s[1..], id)
  }

  ghost predicate NoneWithId(s: seq<ChatRecord>, id: string)
  {
    forall c :: c in s ==> c.id != id
  }

  /** Removing keeps the survivors in their relative order: it works piece by piece. */
  lemma {:induction false} RemoveByIdAppend(a: seq<ChatRecord>, b: seq<ChatRecord>, id: string)
    ensures RemoveById(a + b, id) == RemoveById(a, id) + RemoveById(b, id)
  {
    if a == [] {
      assert a + b == b;
    } else {
      var head := if a[0].id == id then [] else [a[0]];
      assert (a + b)[0] == a[0] && (a + b)[1..] == a[1..] + b;
      calc {
        RemoveById(a + b, id);
        head + RemoveById(a[1..] + b, id);
        { RemoveByIdAppend(a[1..], b, id); }
        head + (RemoveById(a[1..], id) + RemoveById(b, id));
        (head + RemoveById(a[1..], id)) + RemoveById(b, id);
      }
    }
  }

  /** Removing an id that no record carries leaves the list as it was. */
  lemma {:induction false} RemoveAbsentId(s: seq<ChatRecord>, id: string)
    requires NoneWithId(s, id)
    ensures RemoveById(s, id) == s
  {
    if s != [] {
      RemoveAbsentId(s[1..], id);
    }
  }

  /** Deleting twice is deleting once. */
  lemma RemoveByIdIdempotent(s: seq<ChatRecord>, id: string)
    ensures RemoveById(RemoveById(s, id), id) == RemoveById(s, id)
  {
    RemoveAbsentId(RemoveById(s, id), id);
  }

  /** Deleting a freshly created record gives back the list it was put in front of. */
  lemma DeleteUndoesCreate(s: seq<ChatRecord>, data: ChatRecord)
    requires NoneWithId(s, data.id)
    ensures RemoveById([data] + s, data.id) == s
  {
    RemoveByIdAppend([data], s, data.id);
    RemoveAbsentId(s, data.id);
  }

  /** Updating an id that no record carries leaves the list as it was. */
  lemma ReplaceAbsentId(s: seq<ChatRecord>, id: string, data: ChatRecord)
    requires NoneWithId(s, id)
    ensures ReplaceById(s, id, data) == s
  {
    var r := ReplaceById(s, id, data);
    forall i | 0 <= i < |s| ensures r[i] == s[i] {
      assert s[i] in s;
    }
  }

  /** Deleting an id after updating it removes the same records as deleting it straight away,
      when the returned row carries that id (as a row selected by `eq('id', id)` does). */
  lemma {:induction false} RemoveAfterReplace(s: seq<ChatRecord>, id: string, data: ChatRecord)
    requires data.id == id
    ensures RemoveById(ReplaceById(s, id, data), id) == RemoveById(s, id)
  {
    if s != [] {
      var rest := ReplaceById(s[1..], id, data);
      var head := if s[0].id == id then data else s[0];
      var r := ReplaceById(s, id, data);
      assert r == [head] + rest;
      assert r[0] == head && r[1..] == rest;
      assert head.id == id <==> s[0].id == id;
      calc {
        RemoveById(r, id);
        (if head.id == id then [] else [head]) + RemoveById(rest, id);
        { RemoveAfterReplace(s[1..], id, data); }
        (if s[0].id == id then [] else [s[0]]) + RemoveById(s[1..], id);
        RemoveById(s, id);
      }
    }
  }

  /** The provider's state: `chatHistory`, `loading` and `error`. Each remote call is a
      parameter mapping the request the provider issues to the call's result. */
  class ChatHistoryProvider {
    var chatHistory: seq<ChatRecord>
    var loading: bool
    var error: Option<string>

    /** The initial state of the three `useState` hooks. */
    constructor ()
      ensures chatHistory == [] && loading && error == None
    {
      chatHistory := [];
      loading := true;
      error := None;
    }

    /** `fetchChatHistory`: the user's rows, newest first, replace the list; a failure is
        recorded in `error` and swallowed; `loading` is false at the end either way. */
    method FetchChatHistory(userId: string, select: Query -> Result<Option<seq<ChatRecord>>>)
      modifies this
      ensures !loading
      ensures select(OwnedBy(userId)).Ok? ==>
        chatHistory == OrEmpty(select(OwnedBy(userId)).value) && error == old(error)
      ensures select(OwnedBy(userId)).Err? ==>
        chatHistory == old(chatHistory) && error == Some(select(OwnedBy(userId)).message)
    {
      loading := true;
      var response := select(OwnedBy(userId));
      match response {
        case Ok(data) =>
          chatHistory := OrEmpty(data);
        case Err(message) =>
          error := Some(message);
      }
      loading := false;
    }

    /** `createChat`: on success the new row goes to the front and is returned; on failure
        the list is untouched, `error` is set and the error is rethrown. */
    method CreateChat(userId: string, title: string, messages: seq<Message>,
                      insert: NewChat -> Result<ChatRecord>)
      returns (r: Result<ChatRecord>)
      modifies this
      ensures r == insert(NewChat(userId, title, messages))
      ensures r.Ok? ==> chatHistory == [r.value] + old(chatHistory) && error == old(error)
      ensures r.Err? ==> chatHistory == old(chatHistory) && error == Some(r.message)
      ensures loading == old(loading)
    {
      r := insert(NewChat(userId, title, messages));
      match r {
        case Ok(data) =>
          chatHistory := [data] + chatHistory;
        case Err(message) =>
          error := Some(message);
      }
    }

    /** `updateChat`: on success every record with that id becomes the returned row and
        nothing else moves; on failure the list is untouched, `error` is set and the error
        is rethrown. */
    method UpdateChat(id: string, messages: seq<Message>, now: Timestamp,
                      update: ChatUpdate -> Result<ChatRecord>)
      returns (r: Outcome)
      modifies this
      ensures update(ChatUpdate(id, messages, now)).Ok? ==>
        r == Pass && error == old(error) &&
        chatHistory == ReplaceById(old(chatHistory), id, update(ChatUpdate(id, messages, now)).value)
      ensures update(ChatUpdate(id, messages, now)).Err? ==>
        r == Fail(update(ChatUpdate(id, messages, now)).message) &&
        chatHistory == old(chatHistory) && error == Some(r.message)
      ensures loading == old(loading)
    {
      var response := update(ChatUpdate(id, messages, now));
      match response {
        case Ok(data) =>
          chatHistory := ReplaceById(chatHistory, id, data);
          r := Pass;
        case Err(message) =>
          error := Some(message);
          r := Fail(message);
      }
    }

    /** `deleteChat`: on success no record with that id remains; on failure the list is
        untouched, `error` is set and the error is rethrown. */
    method DeleteChat(id: string, delete: string -> Outcome) returns (r: Outcome)
      modifies this
      ensures r == delete(id)
      ensures r.Pass? ==> chatHistory == RemoveById(old(chatHistory), id) && error == old(error)
      ensures r.Pass? ==> NoneWithId(chatHistory, id)
      ensures r.Fail? ==> chatHistory == old(chatHistory) && error == Some(r.message)
      ensures loading == old(loading)
    {
      r := delete(id);
      match r {
        case Pass =>
          chatHistory := RemoveById(chatHistory, id);
        case Fail(message) =>
          error := Some(message);
      }
    }

    /** `searchChats`: the user's rows whose title is ILIKE `%query%` replace the list; a
        failure is recorded in `error` and swallowed; `loading` is false at the end. */
    method SearchChats(userId: string, query: string, select: Query -> Result<Option<seq<ChatRecord>>>)
      modifies this
      ensures !loading
      ensures select(TitleLike(userId, SearchPattern(query))).Ok? ==>
        chatHistory == OrEmpty(select(TitleLike(userId, SearchPattern(query))).value) &&
        error == old(error)
      ensures select(TitleLike(userId, SearchPattern(query))).Err? ==>
        chatHistory == old(chatHistory) &&
        error == Some(select(TitleLike(userId, SearchPattern(query))).message)
    {
      loading := true;
      var response := select(TitleLike(userId, SearchPattern(query)));
      match response {
        case Ok(data) =>
          chatHistory := OrEmpty(data);
        case Err(message) =>
          error := Some(message);
      }
      loading := false;
    }
  }
}
