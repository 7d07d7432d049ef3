/** The chat screen (Frontend/src/Pages/ChatScreen.tsx): the stored chat
    history (`localStorage["chatHistory"]`, here already parsed into a list of
    entries; a missing key is the empty list), the effect that stores the
    current conversation, and the "select chat" and "new chat" handlers.
    Chat ids (`Date.now()`) are supplied by the caller. */
module ChatScreen {
  import opened Json
  import Home
  import Seqs

  datatype ChatEntry = ChatEntry(id: int, title: string, messages: seq<Home.Message>)

  const DefaultTitle: string := "New Chat"
  const TitleLength: nat := 30

  /** `messages[0]?.text?.slice(0, 30) || "New Chat"`. */
  function DeriveTitle(messages: seq<Home.Message>): (title: string)
    ensures title != "" && |title| <= TitleLength
    ensures messages == [] || messages[0].text.None? || messages[0].text.value == "" ==> title == DefaultTitle
    ensures messages != [] && messages[0].text.Some? && messages[0].text.value != "" ==>
      var first := messages[0].text.value;
      |title| <= |first| && first[..|title|] == title && (|title| == TitleLength || title == first)
  {
    if messages != [] && messages[0].text.Some? && messages[0].text.value != "" then
      var first := messages[0].text.value;
      if |first| <= TitleLength then first else first[..TitleLength]
    else DefaultTitle
  }

  /** `stored.filter((chat) => chat.id !== id)`. */
  function WithoutChat(stored: seq<ChatEntry>, id: int): (r: seq<ChatEntry>)
    ensures |r| <= |stored|
    ensures forall e :: e in r <==> e in stored && e.id != id
  {
    if stored == [] then []
    else
      var rest := WithoutChat(stored[1..], id);
      assert stored == [stored[0]] + stored[1..];
      if stored[0].id == id then rest else [stored[0]] + rest
  }

  /** The history with the current chat stored as its last entry: the entries
      are the new one and the stored entries with other ids. */
  function Upsert(stored: seq<ChatEntry>, id: int, title: string, messages: seq<Home.Message>): (r: seq<ChatEntry>)
    ensures 0 < |r| <= |stored| + 1 && r[|r| - 1] == ChatEntry(id, title, messages)
    ensures forall e :: e in r <==> e == ChatEntry(id, title, messages) || (e in stored && e.id != id)
  {
    WithoutChat(stored, id) + [ChatEntry(id, title, messages)]
  }

  /** The storage effect: the history written, or `None` when the current
      conversation is empty and nothing is written. */
  function SaveEffect(stored: seq<ChatEntry>, currentChatId: int, messages: seq<Home.Message>): (written: Option<seq<ChatEntry>>)
    ensures written.None? <==> messages == []
    ensures written.Some? ==>
      var w := written.value;
      |w| > 0 && w[|w| - 1] == ChatEntry(currentChatId, DeriveTitle(messages), messages)
  {
    if |messages| == 0 then None
    else Some(Upsert(stored, currentChatId, DeriveTitle(messages), messages))
  }

  /** `stored.find((chat) => chat.id === id)`: the first entry with that id. */
  function Lookup(stored: seq<ChatEntry>, id: int): (r: Option<ChatEntry>)
    ensures r.None? <==> forall e :: e in stored ==> e.id != id
    ensures r.Some? ==> r.value in stored && r.value.id == id
  {
    if stored == [] then None
    else if stored[0].id == id then Some(stored[0])
    else
      assert stored == [stored[0]] + stored[1..];
      Lookup(stored[1..], id)
  }

  /** The messages `handleSelectChat` loads: those of a stored entry with the
      id, or none when no entry has it. */
  function SelectMessages(stored: seq<ChatEntry>, id: int): (ms: seq<Home.Message>)
    ensures (forall e :: e in stored ==> e.id != id) ==> ms == []
    ensures ms != [] ==> exists e :: e in stored && e.id == id && e.messages == ms
  {
    match Lookup(stored, id)
    case Some(e) => e.messages
    case None => []
  }

  function CountChat(stored: seq<ChatEntry>, id: int): nat
  {
    if stored == [] then 0 else (if stored[0].id == id then 1 else 0) + CountChat(stored[1..], id)
  }

  predicate UniqueIds(stored: seq<ChatEntry>)
  {
    forall i, j :: 0 <= i < j < |stored| ==> stored[i].id != stored[j].id
  }

  // ----- The stored history -----

  lemma {:induction false} CountChatAppend(a: seq<ChatEntry>, b: seq<ChatEntry>, id: int)
    ensures CountChat(a + b, id) == CountChat(a, id) + CountChat(b, id)
    decreases |a|
  {
    if a == [] {
      assert a + b == b;
    } else {
      CountChatAppend(a[1..], b, id);
      assert (a + b)[0] == a[0];
      assert (a + b)[1..] == a[1..] + b;
    }
  }

  lemma {:induction false} CountChatZero(stored: seq<ChatEntry>, id: int)
    ensures CountChat(stored, id) == 0 <==> forall e :: e in stored ==> e.id != id
    decreases |stored|
  {
    if stored != [] {
      CountChatZero(stored[1..], id);
      assert stored == [stored[0]] + stored[1..];
    }
  }

  /** Removing a chat keeps the other entries in their order: the removal
      distributes over concatenation, and a list without that id is kept whole. */
  lemma {:induction false} WithoutChatAppend(a: seq<ChatEntry>, b: seq<ChatEntry>, id: int)
    ensures WithoutChat(a + b, id) == WithoutChat(a, id) + WithoutChat(b, id)
    decreases |a|
  {
    if a == [] {
      assert a + b == b;
    } else {
      WithoutChatAppend(a[1..], b, id);
      Seqs.SplitFirst(a, b);
      WithoutChatCons(a[0], a[1..] + b, id);
      WithoutChatCons(a[0], a[1..], id);
      Seqs.Associative(if a[0].id == id then [] else [a[0]], WithoutChat(a[1..], id), WithoutChat(b, id));
    }
  }

  lemma WithoutChatCons(e: ChatEntry, stored: seq<ChatEntry>, id: int)
    ensures WithoutChat([e] + stored, id) == (if e.id == id then [] else [e]) + WithoutChat(stored, id)
  {
    assert ([e] + stored)[0] == e && ([e] + stored)[1..] == stored;
  }

  lemma {:induction false} WithoutAbsentChat(stored: seq<ChatEntry>, id: int)
    requires forall e :: e in stored ==> e.id != id
    ensures WithoutChat(stored, id) == stored
    decreases |stored|
  {
    if stored != [] {
      assert stored == [stored[0]] + stored[1..];
      WithoutAbsentChat(stored[1..], id);
    }
  }

  /** After the upsert exactly one entry has the current id, it is the last
      one and holds the given title and messages, and the entries before it
      are the other chats in their original order. */
  lemma UpsertEffect(stored: seq<ChatEntry>, id: int, title: string, messages: seq<Home.Message>)
    ensures var r := Upsert(stored, id, title, messages);
      && CountChat(r, id) == 1
      && r[|r| - 1] == ChatEntry(id, title, messages)
      && r[..|r| - 1] == WithoutChat(stored, id)
      && (forall e :: e in r[..|r| - 1] <==> e in stored && e.id != id)
  {
    var w := WithoutChat(stored, id);
    CountChatZero(w, id);
    CountChatAppend(w, [ChatEntry(id, title, messages)], id);
    assert (w + [ChatEntry(id, title, messages)])[..|w|] == w;
  }

  /** Storing the same conversation twice gives the same history as storing it once. */
  lemma UpsertIdempotent(stored: seq<ChatEntry>, id: int, title: string, messages: seq<Home.Message>)
    ensures Upsert(Upsert(stored, id, title, messages), id, title, messages) == Upsert(stored, id, title, messages)
  {
    var w := WithoutChat(stored, id);
    var e := ChatEntry(id, title, messages);
    WithoutChatAppend(w, [e], id);
    WithoutAbsentChat(w, id);
    assert WithoutChat([e], id) == [];
  }

  /** A history with distinct ids keeps distinct ids after an upsert. */
  lemma UpsertKeepsIdsUnique(stored: seq<ChatEntry>, id: int, title: string, messages: seq<Home.Message>)
    requires UniqueIds(stored)
    ensures UniqueIds(Upsert(stored, id, title, messages))
  {
    UniqueSubsequence(stored, id);
    var w := WithoutChat(stored, id);
    var r := Upsert(stored, id, title, messages);
    forall i, j | 0 <= i < j < |r| ensures r[i].id != r[j].id {
      if j == |r| - 1 {
        assert r[i] in w;
      }
    }
  }

  lemma {:induction false} UniqueSubsequence(stored: seq<ChatEntry>, id: int)
    requires UniqueIds(stored)
    ensures UniqueIds(WithoutChat(stored, id))
    decreases |stored|
  {
    if stored != [] {
      UniqueSubsequence(stored[1..], id);
      var rest := WithoutChat(stored[1..], id);
      if stored[0].id != id {
        forall j | 0 <= j < |rest| ensures rest[j].id != stored[0].id {
          assert rest[j] in stored[1..];
        }
        assert forall i, j :: 0 <= i < j < |[stored[0]] + rest| ==>
          ([stored[0]] + rest)[i].id != ([stored[0]] + rest)[j].id by {
          forall i, j | 0 <= i < j < |[stored[0]] + rest|
            ensures ([stored[0]] + rest)[i].id != ([stored[0]] + rest)[j].id
          {
            if i > 0 {
              assert ([stored[0]] + rest)[i] == rest[i - 1];
            }
            assert ([stored[0]] + rest)[j] == rest[j - 1];
          }
        }
      }
    }
  }

  /** An empty conversation never writes; otherwise the written history
      holds it under the current id. */
  lemma SaveEffectSpec(stored: seq<ChatEntry>, currentChatId: int, messages: seq<Home.Message>)
    ensures SaveEffect(stored, currentChatId, messages).None? <==> messages == []
    ensures messages != [] ==>
      SelectMessages(SaveEffect(stored, currentChatId, messages).value, currentChatId) == messages
  {
    if messages != [] {
      SelectAfterUpsert(stored, currentChatId, DeriveTitle(messages), messages, currentChatId);
    }
  }

  lemma {:induction false} LookupWithout(stored: seq<ChatEntry>, c: int, d: int)
    requires c != d
    ensures Lookup(WithoutChat(stored, c), d) == Lookup(stored, d)
    decreases |stored|
  {
    if stored != [] {
      LookupWithout(stored[1..], c, d);
      var rest := WithoutChat(stored[1..], c);
      if stored[0].id != c {
        assert ([stored[0]] + rest)[1..] == rest;
      }
    }
  }

  lemma {:induction false} LookupAppend(a: seq<ChatEntry>, e: ChatEntry, d: int)
    ensures Lookup(a + [e], d) == if Lookup(a, d).Some? then Lookup(a, d) else if e.id == d then Some(e) else None
    decreases |a|
  {
    if a == [] {
      assert a + [e] == [e];
    } else {
      LookupAppend(a[1..], e, d);
      assert (a + [e])[0] == a[0];
      assert (a + [e])[1..] == a[1..] + [e];
    }
  }

  /** Selecting right after an upsert gives the stored conversation for its
      id and what was there before for every other id. */
  lemma SelectAfterUpsert(stored: seq<ChatEntry>, id: int, title: string, messages: seq<Home.Message>, d: int)
    ensures SelectMessages(Upsert(stored, id, title, messages), d) ==
      if d == id then messages else SelectMessages(stored, d)
  {
    var w := WithoutChat(stored, id);
    LookupAppend(w, ChatEntry(id, title, messages), d);
    if d == id {
      assert Lookup(w, d).None?;
    } else {
      LookupWithout(stored, id, d);
    }
  }

  /** Selecting an id that is stored gives its first entry's messages; an id
      that is not stored gives no messages. */
  lemma SelectSpec(stored: seq<ChatEntry>, id: int)
    ensures (forall e :: e in stored ==> e.id != id) ==> SelectMessages(stored, id) == []
    ensures forall k :: 0 <= k < |stored| && stored[k].id == id && (forall j :: 0 <= j < k ==> stored[j].id != id) ==>
      SelectMessages(stored, id) == stored[k].messages
  {
    forall k | 0 <= k < |stored| && stored[k].id == id && (forall j :: 0 <= j < k ==> stored[j].id != id)
      ensures SelectMessages(stored, id) == stored[k].messages
    {
      SelectFirst(stored, id, k);
    }
  }

  lemma {:induction false} SelectFirst(stored: seq<ChatEntry>, id: int, k: nat)
    requires k < |stored| && stored[k].id == id
    requires forall j :: 0 <= j < k ==> stored[j].id != id
    ensures Lookup(stored, id) == Some(stored[k])
    decreases k
  {
    if k > 0 {
      SelectFirst(stored[1..], id, k - 1);
    }
  }

  // ----- The screen and its handlers -----

  datatype Screen = Screen(messages: seq<Home.Message>, currentChatId: int, sidebarOpen: bool)

  /** The body of the request that saves a chat to the backend. */
  datatype SaveRequest = SaveRequest(chatId: int, title: string, messages: seq<Home.Message>)

  /** `handleSelectChat(id)`. */
  function SelectChat(screen: Screen, stored: seq<ChatEntry>, id: int): (s: Screen)
    ensures s.currentChatId == id && !s.sidebarOpen
    ensures s.messages == SelectMessages(stored, id)
  {
    Screen(SelectMessages(stored, id), id, false)
  }

  /** `handleNewChat()`: the save request issued (if any) and the new screen. */
  function NewChat(screen: Screen, stored: seq<ChatEntry>, newChatId: int): (r: (Option<SaveRequest>, Screen))
    ensures r.1 == Screen([], newChatId, false)
    ensures r.0.Some? ==>
      r.0.value.chatId == screen.currentChatId && r.0.value.messages != [] && r.0.value.title != ""
  {
    var save :=
      match Lookup(stored, screen.currentChatId)
      case Some(current) =>
        if |current.messages| > 0 then
          Some(SaveRequest(screen.currentChatId, if current.title != "" then current.title else DefaultTitle, current.messages))
        else None
      case None => None;
    (save, Screen([], newChatId, false))
  }

  /** A new chat saves the current one only when it is stored with at least
      one message, under a non-empty title; the screen then shows the new,
      empty chat. */
  lemma NewChatSpec(screen: Screen, stored: seq<ChatEntry>, newChatId: int)
    ensures var (save, s) := NewChat(screen, stored, newChatId);
      && s == Screen([], newChatId, false)
      && (save.Some? <==> SelectMessages(stored, screen.currentChatId) != [])
      && (save.Some? ==>
            && save.value.chatId == screen.currentChatId
            && save.value.messages == SelectMessages(stored, screen.currentChatId)
            && save.value.title != ""
            && (Lookup(stored, screen.currentChatId).value.title != "" ==>
                  save.value.title == Lookup(stored, screen.currentChatId).value.title)
            && (Lookup(stored, screen.currentChatId).value.title == "" ==>
                  save.value.title == DefaultTitle))
  {
  }

  // ----- How the screen and its storage evolve -----

  /** The screen together with the stored history. */
  datatype World = World(screen: Screen, stored: seq<ChatEntry>)

  /** What the user does: pick a stored chat, start a new one, or change the
      conversation in the chat page. */
  datatype Action = PickChat(id: int) | StartNewChat(newChatId: int) | ConversationChanged(messages: seq<Home.Message>)

  /** The storage effect, run after the screen changes: an empty conversation
      leaves the history alone, and any other is then found under the
      current id. */
  function Persist(screen: Screen, stored: seq<ChatEntry>): (r: seq<ChatEntry>)
    ensures screen.messages == [] ==> r == stored
    ensures screen.messages != [] ==> SelectMessages(r, screen.currentChatId) == screen.messages
  {
    SaveEffectSpec(stored, screen.currentChatId, screen.messages);
    match SaveEffect(stored, screen.currentChatId, screen.messages)
    case Some(written) => written
    case None => stored
  }

  /** One action as the source wires it: the chat page keeps its own message
      list and never calls the `setMessages` it is handed, so a change of the
      conversation does not reach this screen. */
  function StepAsWritten(w: World, a: Action): (r: (World, Option<SaveRequest>))
    ensures a.ConversationChanged? ==> r == (w, None)
    ensures r.1.Some? ==> a.StartNewChat? && r.1.value.messages != []
    ensures w.stored == [] && w.screen.messages == [] ==>
      r.0.stored == [] && r.0.screen.messages == [] && r.1.None?
  {
    match a
    case PickChat(id) =>
      var s := SelectChat(w.screen, w.stored, id);
      (World(s, Persist(s, w.stored)), None)
    case StartNewChat(n) =>
      var (save, s) := NewChat(w.screen, w.stored, n);
      (World(s, Persist(s, w.stored)), save)
    case ConversationChanged(_) => (w, None)
  }

  function RunAsWritten(w: World, actions: seq<Action>): (r: (World, seq<SaveRequest>))
    decreases |actions|
  {
    if actions == [] then (w, [])
    else
      var (w1, save) := StepAsWritten(w, actions[0]);
      var (w2, saves) := RunAsWritten(w1, actions[1..]);
      (w2, (if save.Some? then [save.value] else []) + saves)
  }

  /** As wired, a screen that starts with an empty history never stores a
      chat and never asks the backend to save one, whatever the user does. */
  lemma {:induction false} HistoryNeverRecorded(screen: Screen, actions: seq<Action>)
    requires screen.messages == []
    ensures RunAsWritten(World(screen, []), actions).0.stored == []
    ensures RunAsWritten(World(screen, []), actions).1 == []
    decreases |actions|
  {
    if actions != [] {
      var (w1, save) := StepAsWritten(World(screen, []), actions[0]);
      assert w1.stored == [] && w1.screen.messages == [] && save.None?;
      HistoryNeverRecorded(w1.screen, actions[1..]);
    }
  }

  /** One action with the chat page sharing this screen's message list. */
  function Step(w: World, a: Action): (r: (World, Option<SaveRequest>))
    ensures a.ConversationChanged? ==> r.0.screen.messages == a.messages
    ensures r.1.Some? ==> a.StartNewChat? && r.1.value.messages != []
    ensures r.0.screen.messages != [] ==>
      SelectMessages(r.0.stored, r.0.screen.currentChatId) == r.0.screen.messages
  {
    match a
    case PickChat(id) =>
      var s := SelectChat(w.screen, w.stored, id);
      (World(s, Persist(s, w.stored)), None)
    case StartNewChat(n) =>
      var (save, s) := NewChat(w.screen, w.stored, n);
      (World(s, Persist(s, w.stored)), save)
    case ConversationChanged(ms) =>
      var s := w.screen.(messages := ms);
      (World(s, Persist(s, w.stored)), None)
  }

  /** With the message list shared, a non-empty conversation is stored under
      the current chat id (and can be selected back), and starting a new chat
      afterwards asks the backend to save exactly that conversation. */
  lemma ConversationRecorded(w: World, ms: seq<Home.Message>, newChatId: int)
    requires ms != []
    ensures var (w1, _) := Step(w, ConversationChanged(ms));
      SelectMessages(w1.stored, w.screen.currentChatId) == ms
    ensures var (w1, _) := Step(w, ConversationChanged(ms));
      Step(w1, StartNewChat(newChatId)).1 == Some(SaveRequest(w.screen.currentChatId, DeriveTitle(ms), ms))
  {
    var cur := w.screen.currentChatId;
    var title := DeriveTitle(ms);
    SelectAfterUpsert(w.stored, cur, title, ms, cur);
    var stored1 := Upsert(w.stored, cur, title, ms);
    LookupAppend(WithoutChat(w.stored, cur), ChatEntry(cur, title, ms), cur);
    assert Lookup(WithoutChat(w.stored, cur), cur).None?;
    assert Lookup(stored1, cur) == Some(ChatEntry(cur, title, ms));
  }

  /** Every step keeps the ids of the stored history distinct. */
  lemma StepKeepsIdsUnique(w: World, a: Action)
    requires UniqueIds(w.stored)
    ensures UniqueIds(Step(w, a).0.stored)
  {
    var (w1, _) := Step(w, a);
    if w1.stored != w.stored {
      UpsertKeepsIdsUnique(w.stored, w1.screen.currentChatId, DeriveTitle(w1.screen.messages), w1.screen.messages);
    }
  }
}
