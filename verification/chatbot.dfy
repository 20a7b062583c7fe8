/** The rule-based fallback responder of frontend/src/components/Chatbot.jsx
    (`getBotResponse` over the `responses` table) and the send guard of
    `handleSendMessage`. The long reply texts are abstracted to the name of
    their category. */
module Chatbot {
  import opened Common

  /** The keys of the `responses` table, in declaration order. */
  datatype Category =
    | Greeting | Help | StartExam | Proctoring | MultipleFace | TabSwitch | Violation
    | Coding | Fullscreen | Exam | Submit | Time | Technical | Thank

  /** One entry of the table: its keywords in order. */
  datatype Rule = Rule(category: Category, keywords: seq<string>)

  /** The table, in the order `Object.entries` walks it. */
  const Responses: seq<Rule> := [
    Rule(Greeting, ["hello", "hi", "hey", "good morning", "good evening"]),
    Rule(Help, ["help", "what can you do", "assist"]),
    Rule(StartExam, ["start exam", "begin exam", "how to start", "starting exam"]),
    Rule(Proctoring, ["proctoring", "proctor", "camera", "webcam", "monitoring", "surveillance"]),
    Rule(MultipleFace, ["multiple face", "more than one face", "two faces", "another person", "someone else", "face detected"]),
    Rule(TabSwitch, ["tab switch", "switch tab", "change tab", "leave exam", "switch window", "alt tab", "new tab"]),
    Rule(Violation, ["violation", "violations", "warning", "warned", "disqualification", "cancel"]),
    Rule(Coding, ["coding", "code", "programming", "developer", "algorithm"]),
    Rule(Fullscreen, ["fullscreen", "full screen", "full screen mode", "f11"]),
    Rule(Exam, ["exam", "test", "assessment", "quiz"]),
    Rule(Submit, ["submit", "submission", "finish", "complete exam"]),
    Rule(Time, ["time", "duration", "timer", "how long", "remaining"]),
    Rule(Technical, ["technical", "issue", "problem", "error", "not working", "internet"]),
    Rule(Thank, ["thank", "thanks", "appreciate", "helpful"])
  ]

  /** The text returned when no keyword matches. */
  const FallbackText: string := "I'm not sure I understand. Could you please rephrase your question?"

  /** A reply: the reply of one category, or the fallback text. */
  datatype Reply = Answer(category: Category) | Fallback(text: string)

  /** Some keyword of the rule occurs in the message. */
  predicate Mentions(rule: Rule, msg: string) {
    exists j :: 0 <= j < |rule.keywords| && Contains(msg, rule.keywords[j])
  }

  /** The first keyword, from index `j` on, that occurs in the message. */
  function FirstKeyword(keywords: seq<string>, msg: string, j: nat): (r: Option<nat>)
    requires j <= |keywords|
    ensures r.Some? ==> (
      j <= r.value < |keywords| && Contains(msg, keywords[r.value])
      && forall i :: j <= i < r.value ==> !Contains(msg, keywords[i]))
    ensures r.None? ==> forall i :: j <= i < |keywords| ==> !Contains(msg, keywords[i])
    decreases |keywords| - j
  {
    if j == |keywords| then None
    else if Contains(msg, keywords[j]) then Some(j)
    else FirstKeyword(keywords, msg, j + 1)
  }

  /** The first rule, from index `k` on, one of whose keywords occurs in the
      message, together with the first such keyword. */
  function FirstRule(rules: seq<Rule>, msg: string, k: nat): (r: Option<(nat, nat)>)
    requires k <= |rules|
    ensures r.Some? ==> (
      k <= r.value.0 < |rules| && r.value.1 < |rules[r.value.0].keywords|
      && Contains(msg, rules[r.value.0].keywords[r.value.1])
      && (forall i :: 0 <= i < r.value.1 ==> !Contains(msg, rules[r.value.0].keywords[i]))
      && (forall i :: k <= i < r.value.0 ==> !Mentions(rules[i], msg)))
    ensures r.None? ==> forall i :: k <= i < |rules| ==> !Mentions(rules[i], msg)
    decreases |rules| - k
  {
    if k == |rules| then None
    else
      match FirstKeyword(rules[k].keywords, msg, 0)
      case Some(j) => Some((k, j))
      case None => FirstRule(rules, msg, k + 1)
  }

  /** The responder over any table: lower-case the message, then answer with
      the first rule that mentions it, or fall back. */
  function Respond(rules: seq<Rule>, message: string): (r: Reply)
    ensures r.Fallback? <==> forall k :: 0 <= k < |rules| ==> !Mentions(rules[k], ToLower(message))
    ensures r.Fallback? ==> r.text == FallbackText
    ensures r.Answer? ==> exists k :: (
      0 <= k < |rules| && rules[k].category == r.category
      && Mentions(rules[k], ToLower(message))
      && forall i :: 0 <= i < k ==> !Mentions(rules[i], ToLower(message)))
  {
    match FirstRule(rules, ToLower(message), 0)
    case Some((k, j)) => Answer(rules[k].category)
    case None => Fallback(FallbackText)
  }

  /** `getBotResponse`. */
  function GetBotResponse(message: string): Reply {
    Respond(Responses, message)
  }

  lemma ToLowerIdempotent(s: string)
    ensures ToLower(ToLower(s)) == ToLower(s)
  {
  }

  /** Matching ignores ASCII case. */
  lemma RespondIgnoresCase(rules: seq<Rule>, message: string)
    ensures Respond(rules, ToLower(message)) == Respond(rules, message)
  {
    ToLowerIdempotent(message);
  }

  /** A rule that mentions the message is never skipped: the answer comes from
      it or from an earlier rule. */
  lemma MentionedRuleAnswers(rules: seq<Rule>, message: string, k: nat)
    requires k < |rules| && Mentions(rules[k], ToLower(message))
    ensures Respond(rules, message).Answer?
    ensures exists i :: 0 <= i <= k && rules[i].category == Respond(rules, message).category
  {
  }

  /** The greeting rule comes first: any message containing "hi" in any
      case is greeted, whatever else it asks about. */
  lemma {:induction false} HiIsGreeted(message: string)
    requires Contains(ToLower(message), "hi")
    ensures GetBotResponse(message) == Answer(Greeting)
  {
    var rule := Responses[0];
    assert rule.keywords[1] == "hi";
    assert Mentions(rule, ToLower(message));
    MentionedRuleAnswers(Responses, message, 0);
  }

  /** "this violation" contains "hi", so it gets the greeting and not the
      violation reply. */
  lemma ThisViolationIsGreeted()
    ensures GetBotResponse("this violation") == Answer(Greeting)
  {
    ThisViolationLower();
    ThisViolationHasHi();
    HiIsGreeted("this violation");
  }

  lemma ThisViolationLower()
    ensures ToLower("this violation") == "this violation"
  {
    LowerCaseUnchanged("this violation");
  }

  lemma LowerCaseUnchanged(s: string)
    requires forall i :: 0 <= i < |s| ==> !IsAsciiUpper(s[i])
    ensures ToLower(s) == s
  {
  }

  lemma ThisViolationHasHi()
    ensures Contains("this violation", "hi")
  {
    assert OccursAt("this violation", "hi", 1);
    ContainsIff("this violation", "hi");
  }

  // ---------------------------------------------------------------------
  // Sending a message
  // ---------------------------------------------------------------------

  datatype Sender = User | Bot

  datatype Message = Message(text: string, sender: Sender, isTyping: bool)

  /** The conversation state: the message list and the input box. */
  datatype ChatState = ChatState(messages: seq<Message>, input: string)

  predicate NoTyping(ms: seq<Message>) {
    forall i :: 0 <= i < |ms| ==> !ms[i].isTyping
  }

  /** The text shown for the answer: the assistant's reply when it came back
      non-empty, the rule-based reply otherwise. */
  function ReplyText(r: Reply, assistant: Option<string>): string {
    if assistant.Some? && assistant.value != "" then assistant.value
    else match r
      case Answer(c) => "reply:" + CategoryName(c)
      case Fallback(t) => t
  }

  function CategoryName(c: Category): string {
    match c
    case Greeting => "greeting"
    case Help => "help"
    case StartExam => "start_exam"
    case Proctoring => "proctoring"
    case MultipleFace => "multiple_face"
    case TabSwitch => "tab_switch"
    case Violation => "violation"
    case Coding => "coding"
    case Fullscreen => "fullscreen"
    case Exam => "exam"
    case Submit => "submit"
    case Time => "time"
    case Technical => "technical"
    case Thank => "thank"
  }

  /** `handleSendMessage`, with the remote assistant's answer as a parameter
      (`None` when the call failed): blank input does nothing; otherwise the
      user's message and the reply are appended, the typing indicator is
      gone again and the input box is cleared. */
  function SendMessage(s: ChatState, assistant: Option<string>): (r: ChatState)
    ensures Trim(s.input) == "" ==> r == s
    ensures Trim(s.input) != "" ==> (
      r.input == ""
      && |r.messages| >= 2
      && r.messages[|r.messages| - 2] == Message(s.input, User, false)
      && r.messages[|r.messages| - 1].sender == Bot)
    ensures Trim(s.input) != "" ==>
      r.messages[|r.messages| - 1] == Message(ReplyText(GetBotResponse(s.input), assistant), Bot, false)
    ensures Trim(s.input) != "" ==>
      r.messages[..|r.messages| - 2] == RemoveTyping(s.messages)
    ensures Trim(s.input) != "" && NoTyping(s.messages) ==>
      r.messages[..|r.messages| - 2] == s.messages
  {
    RemoveTypingKeepsOthers(s.messages);
    if Trim(s.input) == "" then s
    else Exchange(s, ReplyText(GetBotResponse(s.input), assistant))
  }

  /** One exchange once the answer text is known: the user's message and a
      typing indicator are shown, then the indicators are filtered out and
      the answer appended. */
  function Exchange(s: ChatState, answer: string): (r: ChatState)
    ensures r.input == "" && |r.messages| >= 2
    ensures r.messages[|r.messages| - 2] == Message(s.input, User, false)
    ensures r.messages[|r.messages| - 1] == Message(answer, Bot, false)
    ensures r.messages[..|r.messages| - 2] == RemoveTyping(s.messages)
  {
    var withUser := s.messages + [Message(s.input, User, false)];
    var shown := withUser + [Message("...", Bot, true)];
    RemoveTypingAfterSend(s.messages, Message(s.input, User, false), Message("...", Bot, true));
    ChatState(RemoveTyping(shown) + [Message(answer, Bot, false)], "")
  }

  /** `prev.filter(msg => !msg.isTyping)`. */
  function RemoveTyping(ms: seq<Message>): (r: seq<Message>)
    ensures NoTyping(r)
    ensures |r| <= |ms|
    ensures forall m :: m in r <==> m in ms && !m.isTyping
  {
    if |ms| == 0 then []
    else if ms[|ms| - 1].isTyping then RemoveTyping(ms[..|ms| - 1])
    else RemoveTyping(ms[..|ms| - 1]) + [ms[|ms| - 1]]
  }

  lemma {:induction false} RemoveTypingKeepsOthers(ms: seq<Message>)
    ensures NoTyping(ms) ==> RemoveTyping(ms) == ms
  {
    if |ms| > 0 && NoTyping(ms) {
      RemoveTypingKeepsOthers(ms[..|ms| - 1]);
      assert ms[..|ms| - 1] + [ms[|ms| - 1]] == ms;
    }
  }

  /** The filter works piecewise, so it keeps the surviving messages in
      their original order. */
  lemma {:induction false} RemoveTypingConcat(a: seq<Message>, b: seq<Message>)
    ensures RemoveTyping(a + b) == RemoveTyping(a) + RemoveTyping(b)
    decreases |b|
  {
    if |b| == 0 {
      assert a + b == a;
    } else {
      var b' := b[..|b| - 1];
      assert (a + b)[..|a + b| - 1] == a + b';
      assert (a + b)[|a + b| - 1] == b[|b| - 1];
      RemoveTypingConcat(a, b');
    }
  }

  lemma RemoveTypingAfterSend(ms: seq<Message>, sent: Message, typing: Message)
    requires !sent.isTyping && typing.isTyping
    ensures RemoveTyping(ms + [sent] + [typing]) == RemoveTyping(ms) + [sent]
  {
    RemoveTypingAppend(ms + [sent], typing);
    assert (ms + [sent])[..|ms|] == ms;
  }

  lemma RemoveTypingAppend(ms: seq<Message>, m: Message)
    requires m.isTyping
    ensures RemoveTyping(ms + [m]) == RemoveTyping(ms)
  {
    assert (ms + [m])[..|ms|] == ms;
  }

  /** Sending keeps the message list free of typing indicators. */
  lemma SendKeepsNoTyping(s: ChatState, assistant: Option<string>)
    requires NoTyping(s.messages)
    ensures NoTyping(SendMessage(s, assistant).messages)
  {
  }
}
