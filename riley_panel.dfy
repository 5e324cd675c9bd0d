/**
 * The chat panel (src/RileyPanel.jsx): sending appends the user's message
 * and then a reply, chosen by a keyword test on the input; a message whose
 * trimmed text opens with a code fence is shown as a code block, with the
 * fences at the very start and end of the untrimmed text removed.
 */
module RileyPanel {
  import opened Wrappers
  import opened Text
  import Compliance

  datatype Role = User | Riley

  /** A chat message; user messages carry no reasoning. */
  datatype Message = Message(role: Role, text: string, reasoning: Option<string>)

  /** The alternatives of the code-request regular expression, in order. */
  const CodeKeywords: seq<string> := ["code", "generate", "write", "function", "script", "component", "class", "example"]

  /** `maxTokens` passed to the local model for code requests. */
  const CodeTokens: nat := 128

  const CodeReasoning := "Generated using Riley's local open-source model."
  const ComplianceReasoning := "Compliance and reasoning enforced."

  /**
   * Input character `c` matches pattern character `p` under the `i` flag
   * without `u`: only ASCII letters are folded, so a non-ASCII character
   * never matches an ASCII one.
   */
  predicate CharMatchesIgnoreCase(c: char, p: char) {
    c == p || ('a' <= p <= 'z' && c as int == p as int - 32)
  }

  predicate MatchesAt(input: string, kw: string, i: int) {
    0 <= i <= |input| - |kw| && forall k :: 0 <= k < |kw| ==> CharMatchesIgnoreCase(input[i + k], kw[k])
  }

  /** `/code|generate|write|function|script|component|class|example/i.test(input)` */
  predicate KeywordTest(input: string) {
    exists j, i | 0 <= j < |CodeKeywords| && 0 <= i <= |input| :: MatchesAt(input, CodeKeywords[j], i)
  }

  /** Whether `sendMessage` sends the input to the model: the keyword test, which looks for a keyword in the lower-cased input. */
  predicate AsksForCode(input: string): (b: bool)
    ensures b <==> exists kw :: kw in CodeKeywords && Contains(Lower(input), kw)
  {
    KeywordTestIffLowerContains(input);
    KeywordTest(input)
  }

  /**
   * Away from `k`, matching a lower-case letter under `i` is comparing with
   * the lower-cased character. The Kelvin sign lower-cases to `k`, but the
   * regular expression does not fold it; no keyword contains a `k`.
   */
  lemma CharMatchIsLowerEqual(c: char, p: char)
    requires 'a' <= p <= 'z' && p != 'k'
    ensures CharMatchesIgnoreCase(c, p) <==> LowerChar(c) == p
  {
  }

  predicate IsLowerWord(w: string) {
    forall k :: 0 <= k < |w| ==> 'a' <= w[k] <= 'z'
  }

  lemma MatchesAtIffOccursInLower(input: string, kw: string, i: int)
    requires IsLowerWord(kw) && 'k' !in kw
    ensures MatchesAt(input, kw, i) <==> OccursAt(Lower(input), kw, i)
  {
    if 0 <= i <= |input| - |kw| {
      forall k | 0 <= k < |kw|
        ensures CharMatchesIgnoreCase(input[i + k], kw[k]) <==> Lower(input)[i..i + |kw|][k] == kw[k]
      {
        CharMatchIsLowerEqual(input[i + k], kw[k]);
      }
      if MatchesAt(input, kw, i) {
        assert Lower(input)[i..i + |kw|] == kw;
      }
    }
  }

  /**
   * The case-insensitive regular expression test is the same as asking
   * whether the lower-cased input includes one of the keywords.
   */
  lemma KeywordTestIffLowerContains(input: string)
    ensures KeywordTest(input) <==> exists kw :: kw in CodeKeywords && Contains(Lower(input), kw)
  {
    forall j, i | 0 <= j < |CodeKeywords|
      ensures MatchesAt(input, CodeKeywords[j], i) <==> OccursAt(Lower(input), CodeKeywords[j], i)
    {
      MatchesAtIffOccursInLower(input, CodeKeywords[j], i);
    }
    if kw :| kw in CodeKeywords && Contains(Lower(input), kw) {
      var j :| 0 <= j < |CodeKeywords| && CodeKeywords[j] == kw;
      var i :| OccursAt(Lower(input), kw, i);
      assert MatchesAt(input, CodeKeywords[j], i);
    }
    if KeywordTest(input) {
      var j, i :| 0 <= j < |CodeKeywords| && 0 <= i <= |input| && MatchesAt(input, CodeKeywords[j], i);
      assert OccursAt(Lower(input), CodeKeywords[j], i);
      assert CodeKeywords[j] in CodeKeywords;
    }
  }

  /**
   * The reply `sendMessage` appends for a non-empty `input`. `generate`
   * stands for the local model's `generateCode`: `None` when the call
   * rejects, which it does when the model fails to load, and then no reply
   * is appended.
   */
  function ReplyFor(input: string, generate: (string, nat) -> Option<string>, prompt: string): (m: Option<Message>)
    ensures m.Some? ==> m.value.role == Riley
    ensures AsksForCode(input) ==>
      && (m.Some? <==> generate(input, CodeTokens).Some?)
      && (m.Some? ==> m.value.text == generate(input, CodeTokens).value && m.value.reasoning == Some(CodeReasoning))
    ensures !AsksForCode(input) ==> m == Some(Message(Riley, prompt, Some(ComplianceReasoning)))
  {
    if AsksForCode(input) then
      match generate(input, CodeTokens)
      case None => None
      case Some(code) => Some(Message(Riley, code, Some(CodeReasoning)))
    else Some(Message(Riley, prompt, Some(ComplianceReasoning)))
  }

  /** The `messages` and `input` state of the panel. */
  datatype Chat = Chat(messages: seq<Message>, input: string)

  /**
   * `sendMessage()`: nothing for an empty input; otherwise the user's
   * message is appended and the input cleared, then at most one reply is
   * appended. The reply is missing only when the model call rejects.
   */
  function Send(chat: Chat, generate: (string, nat) -> Option<string>, prompt: string): (after: Chat)
    ensures chat.input == "" ==> after == chat
    ensures chat.input != "" ==>
      var reply := ReplyFor(chat.input, generate, prompt);
      && after.input == ""
      && |after.messages| == |chat.messages| + (if reply.Some? then 2 else 1)
      && after.messages[..|chat.messages|] == chat.messages
      && after.messages[|chat.messages|] == Message(User, chat.input, None)
      && (reply.Some? ==> after.messages[|chat.messages| + 1] == reply.value)
  {
    if chat.input == "" then chat
    else
      var withUser := chat.messages + [Message(User, chat.input, None)];
      match ReplyFor(chat.input, generate, prompt)
      case None => Chat(withUser, "")
      case Some(reply) => Chat(withUser + [reply], "")
  }

  /** Only a code request can go unanswered: every other request gets the compliance prompt. */
  lemma UnansweredOnlyIfModelFails(chat: Chat, generate: (string, nat) -> Option<string>, prompt: string)
    requires chat.input != ""
    ensures |Send(chat, generate, prompt).messages| == |chat.messages| + 1 <==>
      AsksForCode(chat.input) && generate(chat.input, CodeTokens).None?
  {
  }

  /** A request naming one of the keywords in any ASCII casing goes to the model. */
  lemma KeywordRequestGoesToModel(input: string, generate: (string, nat) -> Option<string>, prompt: string)
    requires exists kw :: kw in CodeKeywords && Contains(Lower(input), kw)
    ensures ReplyFor(input, generate, prompt).Some? <==> generate(input, CodeTokens).Some?
    ensures ReplyFor(input, generate, prompt).Some? ==>
      ReplyFor(input, generate, prompt).value == Message(Riley, generate(input, CodeTokens).value, Some(CodeReasoning))
  {
  }

  /** Length of the run of lower-case ASCII letters that `s` starts with. */
  function LowerRun(s: string): (n: nat)
    ensures n <= |s|
    ensures IsLowerWord(s[..n])
    ensures n == |s| || !('a' <= s[n] <= 'z')
  {
    if s != [] && 'a' <= s[0] <= 'z' then 1 + LowerRun(s[1..]) else 0
  }

  const Fence := "```"

  /**
   * `text.replace(/^```[a-z]*|```$/g, '')`: the result is a piece of the
   * text; a leading fence is always removed, with the lower-case tag after
   * it; nothing is removed from either end that does not carry a fence.
   */
  function StripFences(text: string): (r: string)
    ensures Contains(text, r)
    ensures StartsWith(text, Fence) ==> |r| <= |text| - |Fence|
    ensures !StartsWith(text, Fence) ==> StartsWith(text, r)
    ensures !EndsWith(text, Fence) ==> EndsWith(text, r)
  {
    var start := if StartsWith(text, Fence) then |Fence| + LowerRun(text[|Fence|..]) else 0;
    var rest := text[start..];
    assert EndsWith(rest, Fence) ==> EndsWith(text, Fence) by {
      if EndsWith(rest, Fence) {
        assert text[|text| - |Fence|..] == rest[|rest| - |Fence|..];
      }
    }
    var r := if EndsWith(rest, Fence) then rest[..|rest| - |Fence|] else rest;
    assert text[start..start + |r|] == r;
    ContainsAt(text, r, start);
    r
  }

  /** Removing the fences of a fenced block gives back its body. */
  lemma StripFencesRoundTrip(lang: string, body: string)
    requires IsLowerWord(lang)
    requires body == [] || !('a' <= body[0] <= 'z')
    ensures StripFences(Fence + lang + body + Fence) == body
  {
    var text := Fence + lang + body + Fence;
    assert text == Fence + (lang + (body + Fence));
    assert text[..|Fence|] == Fence;
    assert text[|Fence|..] == lang + (body + Fence);
    LowerRunOfWord(lang, body + Fence);
    var rest := body + Fence;
    assert text[|Fence| + |lang|..] == rest;
    assert rest[|rest| - |Fence|..] == Fence;
    assert rest[..|rest| - |Fence|] == body;
  }

  lemma {:induction false} LowerRunOfWord(w: string, tail: string)
    requires IsLowerWord(w)
    requires tail == [] || !('a' <= tail[0] <= 'z')
    ensures LowerRun(w + tail) == |w|
  {
    if w != [] {
      assert (w + tail)[1..] == w[1..] + tail;
      LowerRunOfWord(w[1..], tail);
    } else {
      assert w + tail == tail;
    }
  }

  /**
   * `msg.text && msg.text.trim().startsWith('```')`: the message is shown
   * as a code block exactly when a fence follows its leading white space.
   */
  predicate IsCodeBlock(text: string): (b: bool)
    ensures b <==> StartsWith(TrimStart(text), Fence)
  {
    TrimEndKeepsPrefix(TrimStart(text), Fence);
    text != "" && StartsWith(Trim(text), Fence)
  }

  /** The body shown for a code block, as the source computes it: the untrimmed text with fences stripped. */
  function CodeBodyAsWritten(text: string): (body: string)
    ensures !StartsWith(text, Fence) && !EndsWith(text, Fence) ==> body == text
  {
    StripFences(text)
  }

  /** The body shown for a code block: the fences of the trimmed text stripped. */
  function CodeBody(text: string): (body: string) {
    StripFences(Trim(text))
  }

  /**
   * A reply with white space around its fenced block is shown as a code
   * block, yet the source strips nothing from it: both fences stay.
   */
  lemma AsWrittenKeepsFences(w1: string, lang: string, body: string, w2: string)
    requires w1 != [] && AllSpace(w1) && w2 != [] && AllSpace(w2)
    requires IsLowerWord(lang) && (body == [] || !('a' <= body[0] <= 'z'))
    ensures var text := w1 + Fence + lang + body + Fence + w2;
      IsCodeBlock(text) && CodeBodyAsWritten(text) == text
  {
    var x := Fence + lang + body + Fence;
    assert w1 + Fence + lang + body + Fence + w2 == w1 + x + w2;
    assert x[..|Fence|] == Fence;
    SurroundedFenceIsCodeBlock(w1, x, w2);
    SurroundedIsUnfenced(w1, x, w2);
  }

  /** Text whose trimmed form starts with a fence is shown as a code block. */
  lemma SurroundedFenceIsCodeBlock(w1: string, x: string, w2: string)
    requires AllSpace(w1) && AllSpace(w2) && StartsWith(x, Fence) && EndsWith(x, Fence)
    ensures IsCodeBlock(w1 + x + w2)
  {
    assert x[0] == Fence[0] && x[|x| - 1] == Fence[2];
    TrimSurrounded(w1, x, w2);
    assert |w1 + x + w2| >= |x|;
  }

  /** Text with white space on both ends neither starts nor ends with a fence. */
  lemma SurroundedIsUnfenced(w1: string, x: string, w2: string)
    requires w1 != [] && AllSpace(w1) && w2 != [] && AllSpace(w2)
    ensures !StartsWith(w1 + x + w2, Fence) && !EndsWith(w1 + x + w2, Fence)
    ensures CodeBodyAsWritten(w1 + x + w2) == w1 + x + w2
  {
    var text := w1 + x + w2;
    assert text[0] == w1[0];
    assert text[|text| - 1] == w2[|w2| - 1];
    SpaceFirstNotStartsWith(text, Fence);
    SpaceLastNotEndsWith(text, Fence);
  }

  /** Trimming a fenced block with white space around it leaves the block. */
  lemma FencedTrim(w1: string, lang: string, body: string, w2: string)
    requires AllSpace(w1) && AllSpace(w2)
    ensures Trim(w1 + Fence + lang + body + Fence + w2) == Fence + lang + body + Fence
  {
    var x := Fence + lang + body + Fence;
    assert x[0] == '`' && x[|x| - 1] == '`';
    assert w1 + Fence + lang + body + Fence + w2 == w1 + x + w2;
    TrimSurrounded(w1, x, w2);
  }

  /** With the trimmed text, a fenced block shows exactly its body, whatever white space surrounds it. */
  lemma CodeBodyRoundTrip(w1: string, lang: string, body: string, w2: string)
    requires AllSpace(w1) && AllSpace(w2)
    requires IsLowerWord(lang) && (body == [] || !('a' <= body[0] <= 'z'))
    ensures var text := w1 + Fence + lang + body + Fence + w2;
      IsCodeBlock(text) && CodeBody(text) == body
  {
    var text := w1 + Fence + lang + body + Fence + w2;
    FencedTrim(w1, lang, body, w2);
    StripFencesRoundTrip(lang, body);
    assert text != [] by {
      assert |text| >= 6;
    }
  }

  /** How a message's text is shown. */
  datatype Shown = CodeBlock(code: string) | PlainText(text: string)

  /** How the panel shows a message: the fences of a code block are stripped from the untrimmed text. */
  function Render(msg: Message): (s: Shown)
    ensures s.CodeBlock? <==> IsCodeBlock(msg.text)
    ensures s.CodeBlock? ==> s.code == StripFences(msg.text)
    ensures s.PlainText? ==> s.text == msg.text
  {
    if IsCodeBlock(msg.text) then CodeBlock(CodeBodyAsWritten(msg.text)) else PlainText(msg.text)
  }

  /** The renderer with the fences stripped from the trimmed text, as evidently intended. */
  function RenderIntended(msg: Message): (s: Shown)
    ensures s.CodeBlock? <==> IsCodeBlock(msg.text)
    ensures s.CodeBlock? ==> s.code == CodeBody(msg.text)
    ensures s.PlainText? ==> s.text == msg.text
  {
    if IsCodeBlock(msg.text) then CodeBlock(CodeBody(msg.text)) else PlainText(msg.text)
  }

  /**
   * The two renderers disagree on a fenced reply with white space around
   * it: the panel shows the whole text, fences included, and the intended
   * renderer shows just the body.
   */
  lemma RenderersDisagree(w1: string, lang: string, body: string, w2: string)
    requires w1 != [] && AllSpace(w1) && w2 != [] && AllSpace(w2)
    requires IsLowerWord(lang) && (body == [] || !('a' <= body[0] <= 'z'))
    ensures var msg := Message(Riley, w1 + Fence + lang + body + Fence + w2, None);
      Render(msg) == CodeBlock(msg.text) && RenderIntended(msg) == CodeBlock(body)
  {
    AsWrittenKeepsFences(w1, lang, body, w2);
    CodeBodyRoundTrip(w1, lang, body, w2);
  }

  class Panel {
    /** The agent whose prompt is the fallback reply. */
    const agent: Compliance.RileyCoreAgent
    var messages: seq<Message>
    var input: string

    constructor (agent: Compliance.RileyCoreAgent)
      ensures this.agent == agent && messages == [] && input == ""
    {
      this.agent := agent;
      messages := [];
      input := "";
    }

    /** The input's `onChange`. */
    method SetInput(text: string)
      modifies this
      ensures input == text && messages == old(messages)
    {
      input := text;
    }

    /**
     * `sendMessage()`, with `generate` standing for the local model's
     * `generateCode` (`None` when it rejects). `getPrompt` always exists, so
     * the fallback reply is the agent's compliance prompt.
     */
    method SendMessage(generate: (string, nat) -> Option<string>)
      modifies this
      ensures Chat(messages, input) == Send(Chat(old(messages), old(input)), generate, agent.GetPrompt())
    {
      if input == "" {
        return;
      }
      var sent := input;
      messages := messages + [Message(User, sent, None)];
      input := "";
      if AsksForCode(sent) {
        var code := generate(sent, CodeTokens);
        if code.None? {
          return;
        }
        messages := messages + [Message(Riley, code.value, Some(CodeReasoning))];
      } else {
        messages := messages + [Message(Riley, agent.GetPrompt(), Some(ComplianceReasoning))];
      }
    }
  }
}
