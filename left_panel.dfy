/** The history sidebar (Frontend/src/Pages/LeftPanal.tsx): what it shows for
    the stored chats and which id a click hands to the chat screen. */
module LeftPanel {
  import ChatScreen
  import Home

  const MaxShown: nat := 30
  const Ellipsis: string := "..."

  /** `title.length > 30 ? title.slice(0, 30) + "..." : title`: titles of at
      most 30 characters are shown unchanged, longer ones as their first 30
      characters and "...", so no caption is longer than 33 characters. */
  function DisplayTitle(title: string): (caption: string)
    ensures |title| <= MaxShown ==> caption == title
    ensures |title| > MaxShown ==>
      |caption| == MaxShown + |Ellipsis| &&
      caption[..MaxShown] == title[..MaxShown] &&
      caption[MaxShown..] == Ellipsis
    ensures |caption| <= MaxShown + |Ellipsis|
  {
    if |title| > MaxShown then title[..MaxShown] + Ellipsis else title
  }

  /** One row of the list: the chat's id, the caption shown and whether it is
      drawn as the current chat. */
  datatype Row = Row(id: int, caption: string, highlighted: bool)

  /** The panel: the placeholder text, or one row per stored chat. */
  datatype Panel = NoPreviousChats | Rows(rows: seq<Row>)

  function RowOf(chat: ChatScreen.ChatEntry, currentChatId: int): Row
  {
    Row(chat.id, DisplayTitle(chat.title), chat.id == currentChatId)
  }

  function RowsOf(chats: seq<ChatScreen.ChatEntry>, currentChatId: int): (rows: seq<Row>)
    ensures |rows| == |chats|
    ensures forall k :: 0 <= k < |chats| ==> rows[k] == RowOf(chats[k], currentChatId)
  {
    if chats == [] then [] else [RowOf(chats[0], currentChatId)] + RowsOf(chats[1..], currentChatId)
  }

  /** The placeholder when there is no stored chat, otherwise one row per
      chat, in order, carrying that chat's id. */
  function Render(chats: seq<ChatScreen.ChatEntry>, currentChatId: int): (panel: Panel)
    ensures panel.NoPreviousChats? <==> chats == []
    ensures panel.Rows? ==>
      |panel.rows| == |chats| && forall k :: 0 <= k < |chats| ==> panel.rows[k].id == chats[k].id
  {
    if |chats| == 0 then NoPreviousChats else Rows(RowsOf(chats, currentChatId))
  }

  /** Clicking row `k` of the rendered list hands its id to `onSelectChat`:
      the id of chat `k`. */
  function Click(chats: seq<ChatScreen.ChatEntry>, currentChatId: int, k: nat): (selected: int)
    requires k < |chats|
    ensures selected == chats[k].id
  {
    Render(chats, currentChatId).rows[k].id
  }

  // ----- Properties -----

  /** Titles that the chat screen derives are never cut by the sidebar. */
  lemma DerivedTitlesShownWhole(messages: seq<Home.Message>)
    ensures DisplayTitle(ChatScreen.DeriveTitle(messages)) == ChatScreen.DeriveTitle(messages)
  {
  }

  /** The placeholder is shown exactly when there is no stored chat; otherwise
      row `k` shows chat `k`'s caption and is highlighted exactly when that
      chat is the current one. */
  lemma RenderSpec(chats: seq<ChatScreen.ChatEntry>, currentChatId: int)
    ensures Render(chats, currentChatId) == NoPreviousChats <==> chats == []
    ensures chats != [] ==>
      var rows := Render(chats, currentChatId).rows;
      && |rows| == |chats|
      && forall k :: 0 <= k < |chats| ==>
           rows[k].caption == DisplayTitle(chats[k].title) &&
           (rows[k].highlighted <==> chats[k].id == currentChatId)
  {
  }

  /** With distinct ids at most one row is highlighted. */
  lemma AtMostOneHighlighted(chats: seq<ChatScreen.ChatEntry>, currentChatId: int)
    requires ChatScreen.UniqueIds(chats)
    ensures var rows := RowsOf(chats, currentChatId);
      forall i, j :: 0 <= i < |rows| && 0 <= j < |rows| && rows[i].highlighted && rows[j].highlighted ==> i == j
  {
    var rows := RowsOf(chats, currentChatId);
    forall i, j | 0 <= i < |rows| && 0 <= j < |rows| && rows[i].highlighted && rows[j].highlighted
      ensures i == j
    {
      assert rows[i] == RowOf(chats[i], currentChatId) && rows[j] == RowOf(chats[j], currentChatId);
    }
  }

  /** Clicking a row selects exactly that chat: the chat screen loads that
      entry's messages (ids being distinct). */
  lemma ClickLoadsThatChat(chats: seq<ChatScreen.ChatEntry>, currentChatId: int, k: nat)
    requires ChatScreen.UniqueIds(chats) && k < |chats|
    ensures ChatScreen.SelectMessages(chats, Click(chats, currentChatId, k)) == chats[k].messages
  {
    ChatScreen.SelectFirst(chats, chats[k].id, k);
  }
}
