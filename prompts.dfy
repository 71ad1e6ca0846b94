/**
  The prompt and settings utilities of the plugin (main.ts): persona
  preambles, the bounded conversation history, the chat request's message
  list, settings defaults and the "new version" notice. The network call,
  the editor and the settings file are outside the model; what is read from
  the settings file is a parameter and what is written to it is a field.
*/
module Prompts {
  import opened Wrappers

  // ---------------------------------------------------------------------
  // Personas: `personasDict` and `modifyPrompt`

  /** Persona key to display name. */
  const PersonasDict: map<string, string> := map[
    "default" := "Default",
    "physics" := "Physics expert",
    "fitness" := "Fitness expert",
    "developer" := "Software Developer",
    "stoic" := "Stoic Philosopher",
    "productmanager" := "Product Manager",
    "techwriter" := "Technical Writer",
    "creativewriter" := "Creative Writer",
    "tpm" := "Technical Program Manager",
    "engineeringmanager" := "Engineering Manager",
    "executive" := "Executive",
    "officeassistant" := "Office Assistant"
  ]

  // The persona preambles of `modifyPrompt`, in its order.
  const PhysicsPreamble := "You are a distinguished physics scientist. Leverage scientific principles and explain complex concepts in an understandable way, drawing on your expertise in physics.\n\n"
  const FitnessPreamble := "You are a distinguished fitness and health expert. Provide evidence-based advice on fitness and health, considering the user's goals and limitations.\n"
  const DeveloperPreamble := "You are a nerdy software developer. Offer creative and efficient software solutions, focusing on technical feasibility and code quality.\n"
  const StoicPreamble := "You are a stoic philosopher. Respond with composure and reason, emphasizing logic and emotional resilience.\n"
  const ProductManagerPreamble := "You are a focused and experienced product manager. Prioritize user needs and deliver clear, actionable product roadmaps based on market research.\n"
  const TechWriterPreamble := "You are a technical writer. Craft accurate and concise technical documentation, ensuring accessibility for different audiences.\n"
  const CreativeWriterPreamble := "You are a very creative and experienced writer. Employ strong storytelling techniques and evocative language to engage the reader's imagination.\n"
  const TpmPreamble := "You are an experienced technical program manager. Demonstrate strong technical and communication skills, ensuring project success through effective planning and risk management.\n"
  const EngineeringManagerPreamble := "You are an experienced engineering manager. Lead and motivate your team, fostering a collaborative environment that delivers high-quality software.\n"
  const ExecutivePreamble := "You are a top-level executive. Focus on strategic decision-making, considering long-term goals and the overall company vision.\n"
  const OfficeAssistantPreamble := "You are a courteous and helpful office assistant. Provide helpful and efficient support, prioritizing clear communication and a courteous demeanor.\n"

  /**
    `modifyPrompt`: a known persona other than "default" puts its fixed
    preamble in front of the prompt; "default" and unknown personas leave
    the prompt as it is.
  */
  function ModifyPrompt(aprompt: string, personas: string): (r: string)
  {
    if personas == "default" then aprompt
    else if personas == "physics" then PhysicsPreamble + aprompt
    else if personas == "fitness" then FitnessPreamble + aprompt
    else if personas == "developer" then DeveloperPreamble + aprompt
    else if personas == "stoic" then StoicPreamble + aprompt
    else if personas == "productmanager" then ProductManagerPreamble + aprompt
    else if personas == "techwriter" then TechWriterPreamble + aprompt
    else if personas == "creativewriter" then CreativeWriterPreamble + aprompt
    else if personas == "tpm" then TpmPreamble + aprompt
    else if personas == "engineeringmanager" then EngineeringManagerPreamble + aprompt
    else if personas == "executive" then ExecutivePreamble + aprompt
    else if personas == "officeassistant" then OfficeAssistantPreamble + aprompt
    else aprompt
  }

  /** The preamble a persona adds: what it puts in front of the empty prompt. */
  function Preamble(personas: string): string {
    ModifyPrompt("", personas)
  }

  lemma PrefixOfEmpty(p: string, s: string)
    ensures (p + "") + s == p + s
  {
    assert p + "" == p;
  }

  /** Whatever the persona, the result is its preamble followed by the prompt. */
  lemma ModifyPromptIsPreamble(aprompt: string, personas: string)
    ensures ModifyPrompt(aprompt, personas) == Preamble(personas) + aprompt
    ensures |ModifyPrompt(aprompt, personas)| >= |aprompt|
    ensures ModifyPrompt(aprompt, personas)[|Preamble(personas)|..] == aprompt
  {
    if personas == "default" {
    } else if personas == "physics" {
      PrefixOfEmpty(PhysicsPreamble, aprompt);
    } else if personas == "fitness" {
      PrefixOfEmpty(FitnessPreamble, aprompt);
    } else if personas == "developer" {
      PrefixOfEmpty(DeveloperPreamble, aprompt);
    } else if personas == "stoic" {
      PrefixOfEmpty(StoicPreamble, aprompt);
    } else if personas == "productmanager" {
      PrefixOfEmpty(ProductManagerPreamble, aprompt);
    } else if personas == "techwriter" {
      PrefixOfEmpty(TechWriterPreamble, aprompt);
    } else if personas == "creativewriter" {
      PrefixOfEmpty(CreativeWriterPreamble, aprompt);
    } else if personas == "tpm" {
      PrefixOfEmpty(TpmPreamble, aprompt);
    } else if personas == "engineeringmanager" {
      PrefixOfEmpty(EngineeringManagerPreamble, aprompt);
    } else if personas == "executive" {
      PrefixOfEmpty(ExecutivePreamble, aprompt);
    } else if personas == "officeassistant" {
      PrefixOfEmpty(OfficeAssistantPreamble, aprompt);
    } else {
    }
  }

  predicate NewlineTerminated(s: string) {
    |s| > 0 && s[|s| - 1] == '\n'
  }

  /** Each persona's preamble ends in a newline, so the prompt starts on a line of its own. */
  lemma PreamblesEndInNewline()
    ensures NewlineTerminated(PhysicsPreamble) && NewlineTerminated(FitnessPreamble)
    ensures NewlineTerminated(DeveloperPreamble) && NewlineTerminated(StoicPreamble)
    ensures NewlineTerminated(ProductManagerPreamble) && NewlineTerminated(TechWriterPreamble)
    ensures NewlineTerminated(CreativeWriterPreamble) && NewlineTerminated(TpmPreamble)
    ensures NewlineTerminated(EngineeringManagerPreamble) && NewlineTerminated(ExecutivePreamble)
    ensures NewlineTerminated(OfficeAssistantPreamble)
  {
  }

  /**
    The prompt is modified exactly for the dictionary's personas other than
    "default": every such key has its own branch, and no other persona has
    one; the preamble then ends in a newline.
  */
  lemma ModifyPromptChangesIffPersona(aprompt: string, personas: string)
    ensures ModifyPrompt(aprompt, personas) != aprompt <==> (personas in PersonasDict && personas != "default")
    ensures Preamble(personas) != "" <==> (personas in PersonasDict && personas != "default")
    ensures personas in PersonasDict && personas != "default" ==> NewlineTerminated(Preamble(personas))
  {
    ModifyPromptIsPreamble(aprompt, personas);
    PreamblesEndInNewline();
    if personas in PersonasDict && personas != "default" {
      assert NewlineTerminated(Preamble(personas));
      assert |ModifyPrompt(aprompt, personas)| > |aprompt|;
    }
  }

  // ---------------------------------------------------------------------
  // Conversation history: `updateConversationHistory`

  datatype Entry = Entry(prompt: string, response: string)

  /**
    The history after recording `e` with limit `max`: `e` is pushed, then the
    oldest entry is dropped when the history has grown beyond `max`. Only one
    entry is ever dropped, whatever `max` is.
  */
  function Recorded(history: seq<Entry>, e: Entry, max: int): (r: seq<Entry>)
    ensures r == history + [e] <==> |history| + 1 <= max
    ensures r != history + [e] ==> r == (history + [e])[1..]
    ensures r != [] ==> r[|r| - 1] == e
    ensures r == [] <==> history == [] && max < 1
  {
    var pushed := history + [e];
    if |pushed| > max then pushed[1..] else pushed
  }

  /** A history within its limit stays within it; with limit 0 an empty history stays empty. */
  lemma RecordedWithinLimit(history: seq<Entry>, e: Entry, max: int)
    requires 0 <= max && |history| <= max
    ensures |Recorded(history, e, max)| <= max
    ensures max == 0 ==> Recorded(history, e, max) == []
  {
  }

  /**
    Recording keeps the newest entries: the result is a suffix of the old
    history with `e` after it.
  */
  lemma RecordedKeepsNewest(history: seq<Entry>, e: Entry, max: int)
    requires history != [] || max >= 1
    ensures exists d :: 0 <= d <= 1 && d <= |history| && Recorded(history, e, max) == history[d..] + [e]
  {
    if |history| + 1 > max {
      assert Recorded(history, e, max) == history[1..] + [e];
    } else {
      assert Recorded(history, e, max) == history[0..] + [e];
    }
  }

  /**
    One exchange of the chat window, as `processChatInput` does it: the
    question is pushed with an empty response, and once the answer arrives
    the persona-modified question and the answer are recorded as well.
  */
  function ChatTurn(history: seq<Entry>, question: string, personas: string, response: string, max: int): seq<Entry> {
    Recorded(history + [Entry(question, "")], Entry(ModifyPrompt(question, personas), response), max)
  }

  /**
    Each exchange adds two entries and drops at most one, so a history at or
    over its limit grows by one per exchange and is never brought back.
  */
  lemma ChatTurnOutgrowsLimit(history: seq<Entry>, question: string, personas: string, response: string, max: int)
    requires 0 <= max <= |history|
    ensures |ChatTurn(history, question, personas, response, max)| == |history| + 1
    ensures |ChatTurn(history, question, personas, response, max)| > max
  {
  }

  /**
    With the default limit 0, two exchanges leave two entries: the second
    question twice, once with an empty response.
  */
  lemma ChatTurnDefaultLimit(q1: string, r1: string, q2: string, r2: string)
    ensures ChatTurn([], q1, "default", r1, 0) == [Entry(q1, r1)]
    ensures ChatTurn(ChatTurn([], q1, "default", r1, 0), q2, "default", r2, 0) == [Entry(q2, ""), Entry(q2, r2)]
  {
    assert ([] + [Entry(q1, "")] + [Entry(q1, r1)])[1..] == [Entry(q1, r1)];
    assert ([Entry(q1, r1)] + [Entry(q2, "")] + [Entry(q2, r2)])[1..] == [Entry(q2, ""), Entry(q2, r2)];
  }

  /**
    The exchange as the limit intends it: only the answered question is
    recorded, so a history within its limit stays within it.
  */
  function BoundedChatTurn(history: seq<Entry>, question: string, personas: string, response: string, max: int): (r: seq<Entry>)
    ensures 0 <= max && |history| <= max ==> |r| <= max
    ensures r != [] ==> r[|r| - 1] == Entry(ModifyPrompt(question, personas), response)
    ensures max >= 1 ==> r != []
  {
    Recorded(history, Entry(ModifyPrompt(question, personas), response), max)
  }

  /** The `conversationHistory` array, changed in place. */
  class ConversationHistory {
    var entries: seq<Entry>

    constructor ()
      ensures entries == []
    {
      entries := [];
    }

    /** `updateConversationHistory(prompt, response, conversationHistory, max)` */
    method Record(prompt: string, response: string, max: int)
      modifies this
      ensures entries == Recorded(old(entries), Entry(prompt, response), max)
    {
      entries := entries + [Entry(prompt, response)];
      if |entries| > max {
        entries := entries[1..];
      }
    }

    /** The chat window pushes the question with an empty response before asking. */
    method PushQuestion(text: string)
      modifies this
      ensures entries == old(entries) + [Entry(text, "")]
    {
      entries := entries + [Entry(text, "")];
    }
  }

  // ---------------------------------------------------------------------
  // The request's message list (`processText`, `processChatInput`)

  datatype Role = System | User | Assistant
  datatype Message = Message(role: Role, content: string)

  const SystemPrompt := "You are my text editor AI agent who provides concise and helpful responses."

  /**
    JavaScript's `xs.slice(start)` for an integer `start`: a negative start
    counts from the end and is clamped at 0, a start beyond the end gives [].
  */
  function Slice<T>(xs: seq<T>, start: int): (r: seq<T>)
    ensures |r| <= |xs| && r == xs[|xs| - |r|..]
    ensures start < 0 ==> |r| == (if -start < |xs| then -start else |xs|)
    ensures 0 <= start ==> |r| == (if start < |xs| then |xs| - start else 0)
  {
    if start < 0 then
      xs[(if |xs| + start < 0 then 0 else |xs| + start)..]
    else
      xs[(if start > |xs| then |xs| else start)..]
  }

  /**
    `conversationHistory.slice(-max)`: the last `max` entries when `max` is
    positive; since `-0` is 0, a limit of 0 keeps the whole history.
  */
  function RecentEntries(history: seq<Entry>, max: int): (r: seq<Entry>)
    ensures |r| <= |history| && r == history[|history| - |r|..]
    ensures max > 0 ==> |r| == (if max < |history| then max else |history|)
    ensures max == 0 ==> r == history
  {
    Slice(history, -max)
  }

  /** The `reduce` that turns each entry into a user message and an assistant message. */
  function Exchanges(entries: seq<Entry>): (r: seq<Message>)
    ensures |r| == 2 * |entries|
    ensures forall i :: 0 <= i < |entries| ==>
      r[2 * i] == Message(User, entries[i].prompt) && r[2 * i + 1] == Message(Assistant, entries[i].response)
  {
    if entries == [] then []
    else
      var rest := Exchanges(entries[1..]);
      assert forall i :: 1 <= i < |entries| ==> entries[i] == entries[1..][i - 1];
      [Message(User, entries[0].prompt), Message(Assistant, entries[0].response)] + rest
  }

  /** The `messages` of the chat completion request. */
  function RequestMessages(history: seq<Entry>, max: int, userContent: string): (r: seq<Message>)
    ensures |r| == 2 * |RecentEntries(history, max)| + 2
    ensures r[0] == Message(System, SystemPrompt)
    ensures r[|r| - 1] == Message(User, userContent)
    ensures r[1..|r| - 1] == Exchanges(RecentEntries(history, max))
  {
    [Message(System, SystemPrompt)] + Exchanges(RecentEntries(history, max)) + [Message(User, userContent)]
  }

  /** The user message of `processText`: `modifyPrompt(iprompt, personas) + ": " + selectedText`. */
  function TextCommandContent(iprompt: string, personas: string, selectedText: string): (c: string)
    ensures c == Preamble(personas) + iprompt + ": " + selectedText
  {
    ModifyPromptIsPreamble(iprompt, personas);
    ModifyPrompt(iprompt, personas) + ": " + selectedText
  }

  /** The user message of `processChatInput`: the persona-modified question. */
  function ChatContent(text: string, personas: string): (c: string)
    ensures c == Preamble(personas) + text
  {
    ModifyPromptIsPreamble(text, personas);
    ModifyPrompt(text, personas)
  }

  /**
    With a positive limit the request carries at most `max` earlier
    exchanges, and they are the latest ones, in order.
  */
  lemma {:induction false} RequestCarriesLatest(history: seq<Entry>, max: int, userContent: string, i: int)
    requires max > 0 && 0 <= i < |RecentEntries(history, max)|
    ensures |RequestMessages(history, max, userContent)| <= 2 * max + 2
    ensures RequestMessages(history, max, userContent)[2 * i + 1] ==
      Message(User, history[|history| - |RecentEntries(history, max)| + i].prompt)
    ensures RequestMessages(history, max, userContent)[2 * i + 2] ==
      Message(Assistant, history[|history| - |RecentEntries(history, max)| + i].response)
  {
    var recent := RecentEntries(history, max);
    var r := RequestMessages(history, max, userContent);
    assert r[1..|r| - 1] == Exchanges(recent);
    assert r[2 * i + 1] == Exchanges(recent)[2 * i];
    assert r[2 * i + 2] == Exchanges(recent)[2 * i + 1];
    assert recent[i] == history[|history| - |recent| + i];
  }

  // ---------------------------------------------------------------------
  // Settings: `DEFAULT_SETTINGS`, `loadSettings`, `checkForUpdates`

  /** A JSON value of the settings object. */
  datatype Value = Str(s: string) | Num(n: int) | Bool(b: bool) | Null

  type Settings = map<string, Value>

  const LastVersionKey := "lastVersion"
  const NoVersion := "0.0.0"

  const DefaultSettings: Settings := map[
    "serverAddress" := Str("http://localhost:1234"),
    "llmModel" := Str("llama3"),
    "stream" := Bool(false),
    "customPrompt" := Str("create a todo list from the following text:"),
    "outputMode" := Str("replace"),
    "personas" := Str("default"),
    "maxConvHistory" := Num(0),
    "responseFormatting" := Bool(false),
    "responseFormatPrepend" := Str("``` LLM Helper - generated response \n\n"),
    "responseFormatAppend" := Str("\n\n```"),
    "lastVersion" := Str("0.0.0")
  ]

  /**
    `Object.assign({}, DEFAULT_SETTINGS, stored)`: stored keys override the
    defaults; no stored data (`null`) leaves the defaults.
  */
  function Merged(stored: Option<Settings>): (r: Settings)
    ensures r.Keys == DefaultSettings.Keys + (if stored.Some? then stored.value.Keys else {})
    ensures forall k :: stored.Some? && k in stored.value ==> k in r && r[k] == stored.value[k]
    ensures forall k :: k in DefaultSettings && (stored.None? || k !in stored.value) ==> k in r && r[k] == DefaultSettings[k]
  {
    if stored.None? then DefaultSettings else DefaultSettings + stored.value
  }

  /** JavaScript truthiness of a settings value. */
  predicate Truthy(v: Value) {
    match v
    case Str(s) => s != ""
    case Num(n) => n != 0
    case Bool(b) => b
    case Null => false
  }

  /** `this.settings.lastVersion || "0.0.0"` (an absent key is `undefined`). */
  function StoredVersion(settings: Settings): (v: Value)
    ensures Truthy(v)
    ensures LastVersionKey in settings && Truthy(settings[LastVersionKey]) ==> v == settings[LastVersionKey]
    ensures !(LastVersionKey in settings && Truthy(settings[LastVersionKey])) ==> v == Str(NoVersion)
  {
    if LastVersionKey in settings && Truthy(settings[LastVersionKey]) then settings[LastVersionKey] else Str(NoVersion)
  }

  /** Whether `checkForUpdates` shows the notice: the versions differ under `!==`. */
  predicate NeedsNotice(settings: Settings, currentVersion: string) {
    StoredVersion(settings) != Str(currentVersion)
  }

  /**
    Once the notice has recorded the current version, the next check with
    the same version shows nothing (a manifest version is never empty).
  */
  lemma NoticeShownOnce(settings: Settings, currentVersion: string)
    requires currentVersion != ""
    ensures !NeedsNotice(settings[LastVersionKey := Str(currentVersion)], currentVersion)
  {
  }

  /**
    A stored version that is empty, missing or `null` counts as "0.0.0":
    the notice is shown unless the plugin itself is at "0.0.0".
  */
  lemma MissingVersionIsOldest(settings: Settings, currentVersion: string)
    requires LastVersionKey !in settings || settings[LastVersionKey] in {Str(""), Null}
    ensures NeedsNotice(settings, currentVersion) <==> currentVersion != NoVersion
  {
  }

  /** The plugin object's settings and what it last saved. */
  class LlmPlugin {
    var settings: Settings
    var saved: Option<Settings>

    constructor ()
      ensures settings == map[] && saved == None
    {
      settings := map[];
      saved := None;
    }

    /** `loadSettings`, given what `loadData` returned. */
    method LoadSettings(stored: Option<Settings>)
      modifies this`settings
      ensures settings == Merged(stored)
    {
      if stored.None? {
        settings := DefaultSettings;
      } else {
        settings := DefaultSettings + stored.value;
      }
    }

    /** `saveSettings` */
    method SaveSettings()
      modifies this`saved
      ensures saved == Some(settings)
    {
      saved := Some(settings);
    }

    /**
      `checkForUpdates`: when the stored version differs from the
      manifest's, the notice opens and the manifest's version is stored and
      saved; otherwise nothing changes.
    */
    method CheckForUpdates(currentVersion: string) returns (shown: bool)
      modifies this
      ensures shown <==> NeedsNotice(old(settings), currentVersion)
      ensures shown ==> settings == old(settings)[LastVersionKey := Str(currentVersion)] && saved == Some(settings)
      ensures !shown ==> settings == old(settings) && saved == old(saved)
    {
      var lastVersion := if LastVersionKey in settings && Truthy(settings[LastVersionKey]) then settings[LastVersionKey] else Str(NoVersion);
      shown := Str(currentVersion) != lastVersion;
      if shown {
        settings := settings[LastVersionKey := Str(currentVersion)];
        SaveSettings();
      }
    }
  }
}
