/** The chat page (Frontend/src/Pages/Home.tsx): the message list and how it
    reacts to socket events and to sending a message, the typing animation,
    the text clean-up done before speaking, and the supervisor's resolve
    action. The list updaters are pure functions; the component's state and
    its two handlers form the class `HomeView`. */
module Home {
  import opened Json
  import opened Text
  import ChatApi
  import Seqs

  datatype Sender = User | Bot | BotTemp

  /** A file picked in the browser. */
  datatype FileRef = FileRef(name: string, mimeType: string)

  /** One bubble of the chat: who sent it, and its text and/or file. */
  datatype Message = Message(sender: Sender, text: Option<string>, file: Option<FileRef>)

  function BotSays(t: string): Message { Message(Bot, Some(t), None) }
  function UserSays(t: string): Message { Message(User, Some(t), None) }
  function UserSends(f: FileRef): Message { Message(User, None, Some(f)) }
  function Typing(t: string): Message { Message(BotTemp, Some(t), None) }

  /** The error bubble's text, exactly as the source file stores it (its
      warning sign was saved with a double character-set conversion). */
  const SomethingWentWrong: string := "\U{00E2}\U{0161}\U{00A0}\U{00EF}\U{00B8} Something went wrong."

  /** How many characters each typing-animation step reveals. */
  const TypingStep: nat := 15

  function Min(a: int, b: int): int { if a <= b then a else b }

  // ===== Text clean-up before speaking =====

  predicate IsMarkup(c: char) { c == '#' || c == '_' || c == '*' || c == '`' }

  predicate NoMarkup(s: string) { forall k :: 0 <= k < |s| ==> !IsMarkup(s[k]) }

  predicate NoDoubleNewline(s: string)
  {
    forall k :: 0 <= k < |s| - 1 ==> !(s[k] == '\n' && s[k + 1] == '\n')
  }

  /** Every character other than markup occurs as often in `r` as in `s`. */
  predicate SameTextCounts(r: string, s: string)
  {
    forall c :: !IsMarkup(c) ==> multiset(r)[c] == multiset(s)[c]
  }

  /** `replace(/[#_*`]/g, "")`: drops every markup character. */
  function StripMarkup(s: string): (r: string)
    ensures |r| <= |s|
    ensures NoMarkup(r)
  {
    if s == [] then []
    else
      var rest := StripMarkup(s[1..]);
      if IsMarkup(s[0]) then rest else [s[0]] + rest
  }

  /** Stripping keeps every other character as often as it occurs. */
  lemma {:induction false} StripMarkupCounts(s: string)
    ensures SameTextCounts(StripMarkup(s), s)
    decreases |s|
  {
    if s != [] {
      StripMarkupCounts(s[1..]);
      assert s == [s[0]] + s[1..];
    }
  }

  /** Drops the run of newlines that starts `s`. */
  function DropNewlines(s: string): (r: string)
    ensures |r| <= |s| && r == s[|s| - |r|..]
    ensures r == [] || r[0] != '\n'
  {
    if |s| > 0 && s[0] == '\n' then DropNewlines(s[1..]) else s
  }

  /** `replace(/\n{2,}/g, "\n")`: every run of newlines becomes one newline. */
  function CollapseNewlines(s: string): (r: string)
    ensures NoDoubleNewline(r)
    ensures r == [] <==> s == []
    ensures r != [] ==> (r[0] == '\n' <==> s[0] == '\n')
    decreases |s|
  {
    if s == [] then []
    else if s[0] == '\n' then
      var rest := CollapseNewlines(DropNewlines(s));
      assert rest == [] || rest[0] != '\n';
      "\n" + rest
    else [s[0]] + CollapseNewlines(s[1..])
  }

  /** `replace(/[#_*`]/g, "")` works character by character: a single
      character is dropped exactly when it is markup. */
  lemma StripMarkupCons(c: char, s: string)
    ensures StripMarkup([c] + s) == (if IsMarkup(c) then [] else [c]) + StripMarkup(s)
  {
    assert ([c] + s)[0] == c && ([c] + s)[1..] == s;
  }

  /** The markup filter distributes over concatenation. */
  lemma {:induction false} StripMarkupAppend(a: string, b: string)
    ensures StripMarkup(a + b) == StripMarkup(a) + StripMarkup(b)
    ensures |a| == 1 ==> StripMarkup(a) == if IsMarkup(a[0]) then [] else a
    decreases |a|
  {
    if a == [] {
      assert a + b == b;
    } else {
      StripMarkupAppend(a[1..], b);
      Seqs.SplitFirst(a, b);
      StripMarkupCons(a[0], a[1..] + b);
      StripMarkupCons(a[0], a[1..]);
      Seqs.Associative(if IsMarkup(a[0]) then [] else [a[0]], StripMarkup(a[1..]), StripMarkup(b));
      if |a| == 1 {
        assert a[1..] == [];
      }
    }
  }

  /** One step of `replace(/\n{2,}/g, "\n")`: a newline followed by another
      newline is absorbed into the run; any other character is kept. */
  lemma CollapseStep(s: string)
    requires s != []
    ensures CollapseNewlines(s) ==
      if |s| > 1 && s[0] == '\n' && s[1] == '\n' then CollapseNewlines(s[1..])
      else [s[0]] + CollapseNewlines(s[1..])
  {
    if s[0] == '\n' {
      assert DropNewlines(s) == DropNewlines(s[1..]);
      if |s| == 1 || s[1] != '\n' {
        assert DropNewlines(s[1..]) == s[1..];
      }
    }
  }

  /** Each run of two or more newlines becomes one newline: deleting one
      newline of a doubled pair anywhere in the text does not change the
      result. */
  lemma {:induction false} CollapseDropDouble(s: string, k: nat)
    requires k + 1 < |s| && s[k] == '\n' && s[k + 1] == '\n'
    ensures CollapseNewlines(s[..k] + s[k + 1..]) == CollapseNewlines(s)
    decreases k
  {
    CollapseStep(s);
    if k == 0 {
      assert s[..k] + s[k + 1..] == s[1..];
    } else {
      CollapseDropDouble(s[1..], k - 1);
      DeleteAfterFirst(s, k);
      CollapseStep(s[..k] + s[k + 1..]);
    }
  }

  /** Deleting the character at `k > 0` keeps the first character and deletes
      at `k - 1` in the rest. */
  lemma DeleteAfterFirst(s: string, k: nat)
    requires 0 < k < |s| - 1
    ensures var t := s[..k] + s[k + 1..];
      && |t| > 1 && t[0] == s[0]
      && t[1..] == s[1..][..k - 1] + s[1..][k..]
      && (s[k] == s[k + 1] ==> t[1] == s[1])
  {
    var t := s[..k] + s[k + 1..];
    assert t == [s[0]] + (s[1..][..k - 1] + s[1..][k..]);
  }

  /** The text handed to speech synthesis: it has no `#`, `_`, `*` or
      backquote, no two newlines in a row, and neither starts nor ends with
      white space. */
  function Sanitise(raw: string): (r: string)
    ensures NoMarkup(r)
    ensures NoDoubleNewline(r)
    ensures r == [] || (!IsJsWhitespace(r[0]) && !IsJsWhitespace(r[|r| - 1]))
  {
    var m := StripMarkup(raw);
    var c := CollapseNewlines(m);
    var r := Trim(c);
    CollapseKeepsNoMarkup(m);
    InfixKeepsClean(r, c, |c| - |TrimStart(c)|);
    r
  }

  /** `speak`: the utterance spoken, if any. Nothing is spoken without speech
      synthesis or when the cleaned text is empty; what is spoken is never
      empty and carries no markup. */
  function Speak(raw: string, synthesisAvailable: bool): (spoken: Option<string>)
    ensures !synthesisAvailable ==> spoken.None?
    ensures spoken.Some? ==> spoken.value != "" && NoMarkup(spoken.value) && NoDoubleNewline(spoken.value)
  {
    if !synthesisAvailable then None
    else
      var text := Sanitise(raw);
      if text == "" then None else Some(text)
  }

  function WithoutNewlines(s: string): string
  {
    if s == [] then [] else (if s[0] == '\n' then [] else [s[0]]) + WithoutNewlines(s[1..])
  }

  lemma {:induction false} WithoutNewlinesDrop(s: string)
    ensures WithoutNewlines(DropNewlines(s)) == WithoutNewlines(s)
    decreases |s|
  {
    if |s| > 0 && s[0] == '\n' {
      WithoutNewlinesDrop(s[1..]);
    }
  }

  /** Collapsing changes nothing but newlines: the other characters stay, in order. */
  lemma {:induction false} CollapseKeepsText(s: string)
    ensures WithoutNewlines(CollapseNewlines(s)) == WithoutNewlines(s)
    decreases |s|
  {
    if s == [] {
    } else if s[0] == '\n' {
      var d := DropNewlines(s);
      CollapseKeepsText(d);
      WithoutNewlinesDrop(s);
      assert WithoutNewlines("\n" + CollapseNewlines(d)) == WithoutNewlines(CollapseNewlines(d));
    } else {
      CollapseKeepsText(s[1..]);
      assert ([s[0]] + CollapseNewlines(s[1..]))[1..] == CollapseNewlines(s[1..]);
    }
  }

  /** A text without doubled newlines is left as it is. */
  lemma {:induction false} CollapseFixpoint(s: string)
    requires NoDoubleNewline(s)
    ensures CollapseNewlines(s) == s
    decreases |s|
  {
    if s == [] {
    } else if s[0] == '\n' {
      assert |s| == 1 || s[1] != '\n';
      assert DropNewlines(s) == s[1..] by {
        assert DropNewlines(s) == DropNewlines(s[1..]);
      }
      CollapseFixpoint(s[1..]);
    } else {
      CollapseFixpoint(s[1..]);
    }
  }

  /** Collapsing twice is collapsing once. */
  lemma CollapseIdempotent(s: string)
    ensures CollapseNewlines(CollapseNewlines(s)) == CollapseNewlines(s)
  {
    CollapseFixpoint(CollapseNewlines(s));
  }

  /** Collapsing never introduces a markup character. */
  lemma {:induction false} CollapseKeepsNoMarkup(s: string)
    requires NoMarkup(s)
    ensures NoMarkup(CollapseNewlines(s))
    decreases |s|
  {
    if s == [] {
    } else if s[0] == '\n' {
      var d := DropNewlines(s);
      assert NoMarkup(d) by {
        forall k | 0 <= k < |d| ensures !IsMarkup(d[k]) {
          assert d[k] == s[|s| - |d| + k];
        }
      }
      CollapseKeepsNoMarkup(d);
    } else {
      CollapseKeepsNoMarkup(s[1..]);
    }
  }

  lemma InfixKeepsClean(r: string, s: string, i: int)
    requires OccursAt(r, s, i)
    ensures NoMarkup(s) ==> NoMarkup(r)
    ensures NoDoubleNewline(s) ==> NoDoubleNewline(r)
  {
    forall k | 0 <= k < |r| ensures r[k] == s[i + k] {
      assert r[k] == s[i..i + |r|][k];
    }
  }

  /** Something is spoken exactly when synthesis is available and the cleaned
      text is not all white space; what is spoken is that cleaned text. */
  lemma SpeakWhen(raw: string, synthesisAvailable: bool)
    ensures Speak(raw, synthesisAvailable).Some? <==>
      synthesisAvailable && !AllWhitespace(CollapseNewlines(StripMarkup(raw)))
    ensures Speak(raw, synthesisAvailable).Some? ==>
      Speak(raw, synthesisAvailable).value == Sanitise(raw) && Sanitise(raw) != ""
  {
    TrimEmptyIff(CollapseNewlines(StripMarkup(raw)));
  }

  // ===== Socket events =====

  /** An incoming socket payload after `JSON.parse`, by its `type` field. */
  datatype SocketEvent =
    | Analysis(analysis: string)
    | Hint
    | NewHelpRequest(question: string)
    | HelpResolved(answer: string)
    | OtherType(kind: string)
    | Unparseable

  /** What handling an event does: the new message list and what is spoken. */
  datatype Reaction = Reaction(messages: seq<Message>, spoken: Option<string>)

  /** `socket.onmessage`. */
  function OnSocketMessage(prev: seq<Message>, event: SocketEvent, synthesisAvailable: bool): (r: Reaction)
    ensures prev <= r.messages && |r.messages| <= |prev| + 1
    ensures r.spoken.Some? ==> event.HelpResolved?
  {
    match event
    case Analysis(a) => Reaction(prev + [BotSays(a)], None)
    case HelpResolved(answer) => Reaction(prev + [BotSays(answer)], Speak(answer, synthesisAvailable))
    case _ => Reaction(prev, None)
  }

  /** An analysis or a resolved help request appends exactly one bot bubble
      holding its text and keeps the earlier bubbles; a resolved request is
      also read aloud. Every other event leaves the list as it was. */
  lemma SocketEventEffect(prev: seq<Message>, event: SocketEvent, synthesisAvailable: bool)
    ensures var r := OnSocketMessage(prev, event, synthesisAvailable);
      (event.Analysis? || event.HelpResolved?) ==>
        |r.messages| == |prev| + 1 && r.messages[..|prev|] == prev &&
        r.messages[|prev|].sender == Bot &&
        r.messages[|prev|].text == Some(if event.Analysis? then event.analysis else event.answer)
    ensures var r := OnSocketMessage(prev, event, synthesisAvailable);
      !(event.Analysis? || event.HelpResolved?) ==> r.messages == prev && r.spoken.None?
    ensures var r := OnSocketMessage(prev, event, synthesisAvailable);
      event.HelpResolved? ==> r.spoken == Speak(event.answer, synthesisAvailable)
  {
  }

  // ===== Typing animation =====

  /** `prev.filter((m) => m.sender !== "bot-temp")`. */
  function WithoutTyping(ms: seq<Message>): (r: seq<Message>)
    ensures |r| <= |ms|
    ensures forall k :: 0 <= k < |r| ==> r[k].sender != BotTemp
    ensures forall m :: m in r <==> m in ms && m.sender != BotTemp
  {
    if ms == [] then []
    else
      var rest := WithoutTyping(ms[1..]);
      assert ms == [ms[0]] + ms[1..];
      if ms[0].sender == BotTemp then rest else [ms[0]] + rest
  }

  function TypingCount(ms: seq<Message>): nat
  {
    if ms == [] then 0 else (if ms[0].sender == BotTemp then 1 else 0) + TypingCount(ms[1..])
  }

  /** One animation step: the previous placeholder is replaced by one showing `t`. */
  function ShowTyping(ms: seq<Message>, t: string): (r: seq<Message>)
    ensures |r| > 0 && r[|r| - 1] == Typing(t)
    ensures forall k :: 0 <= k < |r| - 1 ==> r[k].sender != BotTemp
  {
    WithoutTyping(ms) + [Typing(t)]
  }

  /** The final step: placeholders are removed and the full reply appended. */
  function Finalise(ms: seq<Message>, full: string): (r: seq<Message>)
    ensures |r| > 0 && r[|r| - 1] == BotSays(full)
    ensures forall k :: 0 <= k < |r| ==> r[k].sender != BotTemp
  {
    WithoutTyping(ms) + [BotSays(full)]
  }

  lemma {:induction false} TypingCountAppend(a: seq<Message>, b: seq<Message>)
    ensures TypingCount(a + b) == TypingCount(a) + TypingCount(b)
    decreases |a|
  {
    if a == [] {
      assert a + b == b;
    } else {
      TypingCountAppend(a[1..], b);
      assert (a + b)[0] == a[0];
      assert (a + b)[1..] == a[1..] + b;
    }
  }

  lemma {:induction false} WithoutTypingAppend(a: seq<Message>, b: seq<Message>)
    ensures WithoutTyping(a + b) == WithoutTyping(a) + WithoutTyping(b)
    decreases |a|
  {
    if a == [] {
      assert a + b == b;
    } else {
      WithoutTypingAppend(a[1..], b);
      Seqs.SplitFirst(a, b);
      WithoutTypingCons(a[0], a[1..] + b);
      WithoutTypingCons(a[0], a[1..]);
      Seqs.Associative(if a[0].sender == BotTemp then [] else [a[0]], WithoutTyping(a[1..]), WithoutTyping(b));
    }
  }

  lemma WithoutTypingCons(m: Message, ms: seq<Message>)
    ensures WithoutTyping([m] + ms) == (if m.sender == BotTemp then [] else [m]) + WithoutTyping(ms)
  {
    assert ([m] + ms)[0] == m && ([m] + ms)[1..] == ms;
  }

  /** Removing placeholders keeps a list without placeholders as it is, and
      leaves none behind. */
  lemma {:induction false} WithoutTypingSpec(ms: seq<Message>)
    ensures TypingCount(WithoutTyping(ms)) == 0
    ensures TypingCount(ms) == 0 ==> WithoutTyping(ms) == ms
    ensures |WithoutTyping(ms)| == |ms| - TypingCount(ms)
    decreases |ms|
  {
    if ms != [] {
      WithoutTypingSpec(ms[1..]);
      if ms[0].sender != BotTemp {
        assert ([ms[0]] + WithoutTyping(ms[1..]))[1..] == WithoutTyping(ms[1..]);
      }
    }
  }

  /** After a typing step exactly one placeholder exists, it is the last
      bubble and shows `t`, and the bubbles before it are the earlier
      non-placeholder bubbles in their order. */
  lemma ShowTypingEffect(ms: seq<Message>, t: string)
    ensures TypingCount(ShowTyping(ms, t)) == 1
    ensures ShowTyping(ms, t)[|ShowTyping(ms, t)| - 1] == Typing(t)
    ensures WithoutTyping(ShowTyping(ms, t)) == WithoutTyping(ms)
  {
    WithoutTypingSpec(ms);
    TypingCountAppend(WithoutTyping(ms), [Typing(t)]);
    WithoutTypingAppend(WithoutTyping(ms), [Typing(t)]);
    WithoutTypingSpec(WithoutTyping(ms));
    assert WithoutTyping([Typing(t)]) == [];
  }

  /** Finalising leaves no placeholder, keeps the other bubbles in order and
      ends with one bot bubble holding the full reply; a placeholder shown
      before makes no difference. */
  lemma FinaliseEffect(ms: seq<Message>, t: string, full: string)
    ensures TypingCount(Finalise(ms, full)) == 0
    ensures Finalise(ms, full)[..|Finalise(ms, full)| - 1] == WithoutTyping(ms)
    ensures Finalise(ms, full)[|Finalise(ms, full)| - 1] == BotSays(full)
    ensures Finalise(ShowTyping(ms, t), full) == Finalise(ms, full)
  {
    WithoutTypingSpec(ms);
    TypingCountAppend(WithoutTyping(ms), [BotSays(full)]);
    assert TypingCount([BotSays(full)]) == 0;
    ShowTypingEffect(ms, t);
  }

  /** The animation frames of a reply: frame `k` shows its first
      min(15 * k + 15, length) characters, and there is one frame per started
      block of 15 characters. */
  predicate AreTypingFrames(full: string, frames: seq<string>)
  {
    && |frames| == (|full| + TypingStep - 1) / TypingStep
    && forall k :: 0 <= k < |frames| ==> frames[k] == full[..Min(TypingStep * k + TypingStep, |full|)]
  }

  // ===== Sending =====

  /** The result of the request to the backend: its parsed JSON body, or a
      failure of `fetch` or `res.json()`. */
  datatype FetchResult = Received(body: Json) | NetworkError

  /** `typeof data.reply === "string" ? data.reply : JSON.stringify(data.reply, null, 2)`,
      with `JSON.stringify` given as `stringify`. `None` means the code throws:
      an absent `reply` stringifies to `undefined` and reading its length fails. */
  function FullText(body: Json, stringify: Json -> string): (t: Option<string>)
    ensures t.None? <==> Prop(Some(body), "reply").None?
    ensures Prop(Some(body), "reply").Some? && Prop(Some(body), "reply").value.JStr? ==>
      t == Some(Prop(Some(body), "reply").value.s)
  {
    match Prop(Some(body), "reply")
    case None => None
    case Some(JStr(s)) => Some(s)
    case Some(v) => Some(stringify(v))
  }

  /** The input box's text: the state starts as `null`, read here as empty. */
  function InputText(input: Option<string>): string
  {
    match input
    case Some(s) => s
    case None => ""
  }

  datatype Guard = Proceed | Skip | Throws

  /** The guard of `handleSend` as written, `!input.trim() && !file`: on the
      initial `null` input, `input.trim()` throws. */
  function SendGuardAsWritten(input: Option<string>, file: Option<FileRef>): (g: Guard)
    ensures g == Throws <==> input.None?
    ensures input.Some? ==> (g == Proceed <==> !AllWhitespace(input.value) || file.Some?)
  {
    match input
    case None => Throws
    case Some(s) =>
      TrimEmptyIff(s);
      if Trim(s) == "" && file.None? then Skip else Proceed
  }

  /** Attaching a file before ever typing cannot be sent: the guard throws
      even though a file is present. */
  lemma FileOnlySendThrows(f: FileRef)
    ensures SendGuardAsWritten(None, Some(f)) == Throws
    ensures SendGuard(None, Some(f)) == Proceed
  {
  }

  /** The guard with a `null` input read as empty text. */
  function SendGuard(input: Option<string>, file: Option<FileRef>): (g: Guard)
    ensures g != Throws
    ensures g == Proceed <==> !AllWhitespace(InputText(input)) || file.Some?
  {
    TrimEmptyIff(InputText(input));
    if Trim(InputText(input)) == "" && file.None? then Skip else Proceed
  }

  /** The bubbles `handleSend` adds for the user: the text when it is not
      blank, then the file when there is one. */
  function Submitted(ms: seq<Message>, text: string, file: Option<FileRef>): (r: seq<Message>)
    ensures |ms| <= |r| <= |ms| + 2 && r[..|ms|] == ms
  {
    ms + (if Trim(text) != "" then [UserSays(text)] else [])
       + (if file.Some? then [UserSends(file.value)] else [])
  }

  /** The bubbles after the reply: the final bot bubble, or the error bubble. */
  function AfterReply(ms: seq<Message>, full: Option<string>): (r: seq<Message>)
    ensures |r| > 0 && r[|r| - 1] == BotSays(if full.Some? then full.value else SomethingWentWrong)
    ensures full.None? ==> |r| == |ms| + 1 && r[..|ms|] == ms
    ensures full.Some? ==> forall k :: 0 <= k < |r| ==> r[k].sender != BotTemp
  {
    match full
    case Some(t) => Finalise(ms, t)
    case None => ms + [BotSays(SomethingWentWrong)]
  }

  /** The form `handleSend` posts: the input text and the file, if any. */
  function SendForm(text: string, file: Option<FileRef>): (form: ChatApi.Form)
    ensures ChatApi.MessageField(form) == text
    ensures ChatApi.UploadedFile(form).Some? <==> file.Some?
    ensures file.Some? ==> ChatApi.UploadedFile(form).value.originalFilename == file.value.name
  {
    ChatApi.Form(Some([text]), if file.Some? then Some([ChatApi.Upload(file.value.name)]) else None)
  }

  /** The user bubbles appear text first, then file, each exactly when its
      source is present, and nothing else is added. */
  lemma SubmittedEffect(ms: seq<Message>, text: string, file: Option<FileRef>)
    ensures var r := Submitted(ms, text, file);
      |r| == |ms| + (if Trim(text) != "" then 1 else 0) + (if file.Some? then 1 else 0)
    ensures Trim(text) != "" ==> Submitted(ms, text, file)[|ms|] == UserSays(text)
    ensures file.Some? ==> Submitted(ms, text, file)[|Submitted(ms, text, file)| - 1] == UserSends(file.value)
    ensures !AllWhitespace(text) <==> Trim(text) != ""
  {
    TrimEmptyIff(text);
  }

  /** The backend builds its prompt from exactly what the user sent: the
      text, and the file's name when a file is attached. */
  lemma SendFormPrompt(text: string, file: Option<FileRef>)
    ensures var form := SendForm(text, file);
      ChatApi.Prompt(ChatApi.MessageField(form), ChatApi.UploadedFile(form)) ==
        if file.Some? then text + ChatApi.UploadNote + file.value.name else text
  {
  }

  /** A request that the backend answers always ends in one final bot bubble
      (never the error bubble): its text is the reply when that is a string. */
  lemma BackendReplyIsShown(form: ChatApi.Attempt<ChatApi.Form>, provider: ChatApi.Attempt<Json>, stringify: Json -> string)
    ensures var body := ChatApi.Handle("POST", form, provider).response.body;
      FullText(body, stringify).Some?
    ensures form.Done? && provider.Done? && ChatApi.ReplyOf(provider.value).JStr? ==>
      FullText(ChatApi.Handle("POST", form, provider).response.body, stringify) ==
        Some(ChatApi.ReplyOf(provider.value).s)
    ensures (form.Threw? || provider.Threw?) ==>
      FullText(ChatApi.Handle("POST", form, provider).response.body, stringify) == Some(ChatApi.InternalError)
  {
  }

  /** A successful resolve as seen by the supervisor panel: `data.ok`. */
  predicate ResolveOk(body: Json)
  {
    Truthy(Prop(Some(body), "ok"))
  }

  datatype ResolveRequest = ResolveRequest(id: string, answer: string)

  /** The page's state and its two handlers. */
  class HomeView {
    var input: Option<string>
    var file: Option<FileRef>
    var typing: bool
    var messages: seq<Message>
    var answerText: string

    constructor ()
      ensures input.None? && file.None? && !typing && messages == [] && answerText == ""
    {
      input := None;
      file := None;
      typing := false;
      messages := [];
      answerText := "";
    }

    /** `handleSend`, given the backend's answer to the request it posts. It
        returns the posted form, the typing-animation frames shown and what
        is spoken. A blank input with no file changes nothing. The guard is
        the corrected `SendGuard`: the initial `null` input counts as empty
        text instead of making `input.trim()` throw. */
    method HandleSend(result: FetchResult, stringify: Json -> string, synthesisAvailable: bool)
      returns (request: Option<ChatApi.Form>, frames: seq<string>, spoken: Option<string>)
      modifies this
      ensures SendGuard(old(input), old(file)) == Skip ==>
        request.None? && frames == [] && spoken.None? &&
        input == old(input) && file == old(file) && typing == old(typing) && messages == old(messages)
      ensures SendGuard(old(input), old(file)) == Proceed ==>
        var text := InputText(old(input));
        var full := if result.Received? then FullText(result.body, stringify) else None;
        && request == Some(SendForm(text, old(file)))
        && input == Some("") && file.None? && !typing
        && messages == AfterReply(Submitted(old(messages), text, old(file)), full)
        && (full.Some? ==> AreTypingFrames(full.value, frames) && spoken == Speak(full.value, synthesisAvailable))
        && (full.None? ==> frames == [] && spoken.None?)
      ensures answerText == old(answerText)
    {
      frames, spoken := [], None;
      if SendGuard(input, file) == Skip {
        request := None;
        return;
      }
      var text := InputText(input);
      ghost var submitted := Submitted(messages, text, file);
      if Trim(text) != "" {
        messages := messages + [UserSays(text)];
      }
      if file.Some? {
        messages := messages + [UserSends(file.value)];
      }
      assert messages == submitted;
      request := Some(SendForm(text, file));
      input, file, typing := Some(""), None, true;

      var full := if result.Received? then FullText(result.body, stringify) else None;
      if full.None? {
        messages := messages + [BotSays(SomethingWentWrong)];
      } else {
        var reply := full.value;
        frames := TypeOut(reply);
        spoken := Speak(reply, synthesisAvailable);
      }
      typing := false;
    }

    /** The typing animation and the final bubble: one placeholder per started
        block of 15 characters, each replacing the previous one, then the
        full reply in place of the placeholder. */
    method TypeOut(reply: string) returns (frames: seq<string>)
      modifies this`messages
      ensures AreTypingFrames(reply, frames)
      ensures messages == Finalise(old(messages), reply)
    {
      frames := [];
      ghost var before := messages;
      var i := 0;
      while i < |reply|
        invariant i % TypingStep == 0 && 0 <= i < |reply| + TypingStep
        invariant |frames| == i / TypingStep
        invariant forall k :: 0 <= k < |frames| ==> frames[k] == reply[..Min(TypingStep * k + TypingStep, |reply|)]
        invariant i == 0 ==> messages == before
        invariant i > 0 ==> |frames| > 0 && messages == ShowTyping(before, frames[|frames| - 1])
      {
        var botText := reply[..Min(i + TypingStep, |reply|)];
        if i > 0 {
          ShowTypingEffect(before, frames[|frames| - 1]);
        }
        messages := ShowTyping(messages, botText);
        frames := frames + [botText];
        i := i + TypingStep;
      }
      if i > 0 {
        FinaliseEffect(before, frames[|frames| - 1], reply);
      }
      messages := Finalise(messages, reply);
    }

    /** `handleResolve(id)`, given the backend's answer to the resolve request.
        A blank answer only raises the alert. Once the backend answers, the
        answer box is cleared, and when it reports `ok` the answer is added as
        one bot bubble and read aloud. A failed request changes nothing. */
    method HandleResolve(id: string, result: FetchResult, synthesisAvailable: bool)
      returns (alerted: bool, request: Option<ResolveRequest>, spoken: Option<string>)
      modifies this
      ensures alerted <==> AllWhitespace(old(answerText))
      ensures alerted ==> request.None?
      ensures !alerted ==> request == Some(ResolveRequest(id, old(answerText)))
      ensures input == old(input) && file == old(file) && typing == old(typing)
      ensures answerText == (if !alerted && result.Received? then "" else old(answerText))
      ensures messages ==
        if !alerted && result.Received? && ResolveOk(result.body)
        then old(messages) + [BotSays(old(answerText))] else old(messages)
      ensures spoken ==
        if !alerted && result.Received? && ResolveOk(result.body)
        then Speak(old(answerText), synthesisAvailable) else None
    {
      TrimEmptyIff(answerText);
      spoken := None;
      if Trim(answerText) == "" {
        alerted, request := true, None;
        return;
      }
      alerted := false;
      request := Some(ResolveRequest(id, answerText));
      if result.Received? {
        var answer := answerText;
        answerText := "";
        if ResolveOk(result.body) {
          messages := messages + [BotSays(answer)];
          spoken := Speak(answer, synthesisAvailable);
        }
      }
    }
  }
}
