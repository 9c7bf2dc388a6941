/**
 * The AI assistant endpoint: a transcript is assembled from the chat
 * history, checked, wrapped in the prompt for the requested action and sent
 * to the language model; an "improve" reply is cleaned of code fences and
 * read as a list of strings. The model call and `JSON.parse` are
 * collaborators passed in as functions.
 */
module AiController {
  import opened Common

  /** One entry of the request's `messages`; a null entry is `None`. */
  datatype ChatLine = ChatLine(sender: string, content: Option<string>)

  // ---------------------------------------------------------------------
  // The transcript
  // ---------------------------------------------------------------------

  /** The entries that survive `filter(m => m?.content)`, as `sender: content` lines. */
  function Lines(ms: seq<Option<ChatLine>>): (r: seq<string>)
    ensures |r| <= |ms|
    ensures r == [] <==> forall i :: 0 <= i < |ms| ==> !(ms[i].Some? && Truthy(ms[i].value.content))
    ensures forall i :: 0 <= i < |r| ==> exists j :: 0 <= j < |ms| && ms[j].Some? && Truthy(ms[j].value.content)
                                                       && r[i] == ms[j].value.sender + ": " + ms[j].value.content.value
  {
    if ms == [] then []
    else
      var rest := Lines(ms[1..]);
      var head := ms[0];
      if head.Some? && Truthy(head.value.content) then
        var r := [head.value.sender + ": " + head.value.content.value] + rest;
        assert forall i :: 1 <= i < |r| ==> r[i] == rest[i - 1];
        r
      else
        rest
  }

  /** The line an entry contributes: `sender: content` when its content is truthy. */
  function LineFor(m: Option<ChatLine>): seq<string> {
    if m.Some? && Truthy(m.value.content) then [m.value.sender + ": " + m.value.content.value] else []
  }

  /** The lines keep the entries' order: those of a concatenation are the
      lines of each part, one after the other. */
  lemma {:induction false} LinesAppend(a: seq<Option<ChatLine>>, b: seq<Option<ChatLine>>)
    ensures Lines(a + b) == Lines(a) + Lines(b)
  {
    if a == [] {
      assert a + b == b;
    } else {
      assert (a + b)[0] == a[0] && (a + b)[1..] == a[1..] + b;
      LinesAppend(a[1..], b);
    }
  }

  /** A single entry contributes its own line, or none. */
  lemma LinesOne(m: Option<ChatLine>)
    ensures Lines([m]) == LineFor(m)
  {
    assert [m][1..] == [];
  }

  /** `chatText`: the lines joined by newlines. It is empty exactly when no
      entry has truthy content, since every line holds a ": ". */
  function Transcript(ms: seq<Option<ChatLine>>): (r: string)
    ensures r == "" <==> forall i :: 0 <= i < |ms| ==> !(ms[i].Some? && Truthy(ms[i].value.content))
  {
    var lines := Lines(ms);
    if lines == [] then Join(lines, "\n")
    else
      JoinStartsWithFirst(lines, "\n");
      assert |lines[0]| > 0;
      Join(lines, "\n")
  }

  /** A further entry with content adds its line after a newline, or starts
      the transcript when there was none. */
  lemma {:induction false} TranscriptSnoc(ms: seq<Option<ChatLine>>, x: ChatLine)
    requires Truthy(x.content)
    ensures Transcript(ms + [Some(x)]) ==
      if Lines(ms) == [] then x.sender + ": " + x.content.value
      else Transcript(ms) + "\n" + x.sender + ": " + x.content.value
  {
    LinesAppend(ms, [Some(x)]);
    LinesOne(Some(x));
    var line := x.sender + ": " + x.content.value;
    if Lines(ms) != [] {
      JoinSnoc(Lines(ms), line, "\n");
    } else {
      assert Lines(ms) + [line] == [line];
    }
  }

  lemma {:induction false} JoinStartsWithFirst(parts: seq<string>, sep: string)
    requires parts != []
    ensures parts[0] <= Join(parts, sep)
  {
    if |parts| > 1 {
      assert Join(parts, sep) == parts[0] + (sep + Join(parts[1..], sep));
    }
  }

  /** The transcript is blank exactly when no entry has truthy content: every
      line holds the ": " separator, which is not whitespace. */
  lemma {:induction false} BlankTranscriptIffNoContent(ms: seq<Option<ChatLine>>)
    ensures Trim(Transcript(ms)) == "" <==> forall i :: 0 <= i < |ms| ==> !(ms[i].Some? && Truthy(ms[i].value.content))
  {
    var lines := Lines(ms);
    if lines != [] {
      var j :| 0 <= j < |ms| && ms[j].Some? && Truthy(ms[j].value.content)
               && lines[0] == ms[j].value.sender + ": " + ms[j].value.content.value;
      var t := Transcript(ms);
      JoinStartsWithFirst(lines, "\n");
      var k := |ms[j].value.sender|;
      assert lines[0][k] == ':';
      assert t[k] == ':';
      assert !AllSpace(t);
    }
  }

  // ---------------------------------------------------------------------
  // Actions and prompts
  // ---------------------------------------------------------------------

  datatype Action = SmartReply | Summarize | Translate | Improve | Tone

  function ActionName(a: Action): string {
    match a
    case SmartReply => "smartReply"
    case Summarize => "summarize"
    case Translate => "translate"
    case Improve => "improve"
    case Tone => "tone"
  }

  const ActionNames: set<string> := {"smartReply", "summarize", "translate", "improve", "tone"}

  /** The intended action check: the name of one of the five prompts. */
  function ParseAction(name: string): (r: Option<Action>)
    ensures r.Some? <==> name in ActionNames
    ensures r.Some? ==> ActionName(r.value) == name
  {
    if name == "smartReply" then Some(SmartReply)
    else if name == "summarize" then Some(Summarize)
    else if name == "translate" then Some(Translate)
    else if name == "improve" then Some(Improve)
    else if name == "tone" then Some(Tone)
    else None
  }

  lemma {:induction false} ParseActionName(a: Action)
    ensures ParseAction(ActionName(a)) == Some(a)
  {
    match a
    case SmartReply =>
    case Summarize =>
    case Translate =>
    case Improve =>
    case Tone =>
  }

  /** Properties every plain object inherits from `Object.prototype`; each of
      them is a function or an object, so looking one up is truthy. */
  const InheritedMembers: set<string> := {
    "constructor", "hasOwnProperty", "isPrototypeOf", "propertyIsEnumerable", "toLocaleString",
    "toString", "valueOf", "__proto__", "__defineGetter__", "__defineSetter__",
    "__lookupGetter__", "__lookupSetter__"}

  /** The check as written, `!prompts[action]` on an object literal: it lets
      through the five prompt names and every inherited member name. */
  predicate PassesActionCheckAsWritten(name: string) {
    name in ActionNames || name in InheritedMembers
  }

  /** "toString" passes the written check although it names no prompt. */
  lemma InheritedNamePassesAsWritten()
    ensures PassesActionCheckAsWritten("toString") && ParseAction("toString").None?
    ensures forall name :: ParseAction(name).Some? ==> PassesActionCheckAsWritten(name)
  {
    assert "toString" in InheritedMembers;
  }

  /** `targetLanguage || "English"`: never empty. */
  function Language(target: Option<string>): (r: string)
    ensures r != ""
    ensures Truthy(target) ==> r == target.value
    ensures !Truthy(target) ==> r == "English"
  {
    if Truthy(target) then target.value else "English"
  }

  lemma {:induction false} EmbedsMiddle(head: string, mid: string, tail: string)
    ensures Contains(head + mid + tail, mid)
  {
    var p := head + mid + tail;
    assert p[|head|..|head| + |mid|] == mid;
    assert OccursAt(p, mid, |head|);
    ContainsMeansOccurs(p, mid);
  }

  // The fixed text of the prompts, before and after the interpolated values.
  const SmartReplyHead := "\nSuggest ONE short and natural WhatsApp-style reply to the LAST message only.\nDo NOT explain anything.\n\n"
  const SummarizeHead := "\nSummarize the following chat in 2-3 lines:\n"
  const TranslatePre := "\nTranslate the following chat to "
  const TranslatePost := ":\n"
  const ImproveHead := "\nRewrite ONLY the LAST message in 3 different improved ways.\nReturn ONLY a valid JSON array of strings.\n"
    + "Do NOT add explanations.\nDo NOT add numbering.\nDo NOT add extra text.\n\nChat:\n"
  const TonePre := "\nRewrite ONLY the LAST message in a "
  const TonePost := " tone.\nReturn ONLY the rewritten text.\n"
    + "Do NOT add explanations.\nDo NOT add labels.\nDo NOT add extra text.\n\nChat:\n"

  /** The text before the transcript in each action's prompt. The translate
      prompt names the language and the tone prompt the tone, which renders
      as "undefined" when missing. */
  function PromptHead(a: Action, tone: Option<string>, target: Option<string>): (r: string)
    ensures a == Translate ==> Contains(r, Language(target))
    ensures a == Tone ==> Contains(r, Interpolated(tone))
  {
    match a
    case SmartReply => SmartReplyHead
    case Summarize => SummarizeHead
    case Translate =>
      EmbedsMiddle(TranslatePre, Language(target), TranslatePost);
      TranslatePre + Language(target) + TranslatePost
    case Improve => ImproveHead
    case Tone =>
      EmbedsMiddle(TonePre, Interpolated(tone), TonePost);
      TonePre + Interpolated(tone) + TonePost
  }

  /** The prompt sent to the model: the action's head, the whole transcript,
      and a closing newline. */
  function Prompt(a: Action, chatText: string, tone: Option<string>, target: Option<string>): (r: string)
    ensures PromptHead(a, tone, target) <= r
    ensures Contains(r, chatText)
    ensures r[|r| - 1] == '\n'
  {
    EmbedsMiddle(PromptHead(a, tone, target), chatText, "\n");
    PromptHead(a, tone, target) + chatText + "\n"
  }

  /** A missing or empty target language asks for English. */
  lemma {:induction false} TranslateDefaultsToEnglish(chatText: string, tone: Option<string>, target: Option<string>)
    requires !Truthy(target)
    ensures Prompt(Translate, chatText, tone, target) == Prompt(Translate, chatText, tone, Some("English"))
  {
    assert Language(target) == Language(Some("English"));
  }

  // ---------------------------------------------------------------------
  // Cleaning the "improve" reply
  // ---------------------------------------------------------------------

  /** No three backticks in a row. */
  predicate NoFence(s: string) {
    forall i :: 0 <= i < |s| - 2 ==> !(s[i] == '`' && s[i + 1] == '`' && s[i + 2] == '`')
  }

  /** `replace(/```json|```/g, "")`: a left-to-right scan that at each
      position drops "```json" if it starts there, else "```", and otherwise
      keeps the character. */
  function StripFences(s: string): string
    decreases |s|
  {
    if s == [] then []
    else if "```json" <= s then StripFences(s[7..])
    else if "```" <= s then StripFences(s[3..])
    else [s[0]] + StripFences(s[1..])
  }

  lemma {:induction false} StripKeepsLeadingChar(s: string)
    requires s != [] && s[0] != '`'
    ensures StripFences(s) != [] && StripFences(s)[0] == s[0]
  {
  }

  /** Input that does not open with two backticks gives output that does not either. */
  lemma {:induction false} StripNoDoubleStart(s: string)
    requires !("``" <= s)
    ensures !("``" <= StripFences(s))
  {
    if s != [] && s[0] == '`' {
      assert !("```" <= s) && !("```json" <= s);
      var t := s[1..];
      assert StripFences(s) == "`" + StripFences(t);
      if t != [] {
        assert t[0] != '`';
        StripKeepsLeadingChar(t);
      }
    } else if s != [] {
      StripKeepsLeadingChar(s);
    }
  }

  lemma {:induction false} StripLeavesNoFence(s: string)
    ensures NoFence(StripFences(s))
    decreases |s|
  {
    if s == [] {
    } else if "```json" <= s {
      StripLeavesNoFence(s[7..]);
    } else if "```" <= s {
      StripLeavesNoFence(s[3..]);
    } else {
      var t := s[1..];
      StripLeavesNoFence(t);
      var r := StripFences(s);
      var rt := StripFences(t);
      assert r == [s[0]] + rt;
      if s[0] == '`' {
        assert !("``" <= t);
        StripNoDoubleStart(t);
      }
      forall i | 0 <= i < |r| - 2 ensures !(r[i] == '`' && r[i + 1] == '`' && r[i + 2] == '`') {
        if i > 0 {
          assert r[i] == rt[i - 1] && r[i + 1] == rt[i] && r[i + 2] == rt[i + 1];
        } else if s[0] == '`' {
          assert r[1] == rt[0] && r[2] == rt[1];
          assert !(rt[..2] == "``");
        }
      }
    }
  }


  lemma {:induction false} NoFenceInfix(s: string, c: string, off: int)
    requires NoFence(s) && OccursAt(s, c, off)
    ensures NoFence(c)
  {
    forall i | 0 <= i < |c| - 2 ensures !(c[i] == '`' && c[i + 1] == '`' && c[i + 2] == '`') {
      assert c[i] == s[off + i] && c[i + 1] == s[off + i + 1] && c[i + 2] == s[off + i + 2] by {
        assert s[off..off + |c|] == c;
      }
    }
  }

  lemma {:induction false} NoFenceNoOccurrence(c: string)
    requires NoFence(c)
    ensures !Contains(c, "```")
  {
    ContainsMeansOccurs(c, "```");
    forall i | 0 <= i && i + 3 <= |c| ensures !OccursAt(c, "```", i) {
      assert c[i..i + 3][0] == c[i] && c[i..i + 3][1] == c[i + 1] && c[i..i + 3][2] == c[i + 2];
    }
  }

  /** `reply.replace(...).trim()`: a trimmed text without any code fence. */
  function Cleaned(reply: string): (r: string)
    ensures !Contains(r, "```")
    ensures Trim(r) == r
  {
    var stripped := StripFences(reply);
    StripLeavesNoFence(reply);
    TrimCutsSpace(stripped);
    var off :| OccursAt(stripped, Trim(stripped), off);
    NoFenceInfix(stripped, Trim(stripped), off);
    NoFenceNoOccurrence(Trim(stripped));
    TrimIdempotent(stripped);
    Trim(stripped)
  }

  /** Text without a fence passes the stripping unchanged. */
  lemma {:induction false} StripKeepsPlainText(s: string)
    requires NoFence(s)
    ensures StripFences(s) == s
    decreases |s|
  {
    if s != [] {
      assert !("```" <= s) by {
        if |s| >= 3 {
          assert !(s[0] == '`' && s[1] == '`' && s[2] == '`');
        }
      }
      assert NoFence(s[1..]) by {
        forall i | 0 <= i < |s[1..]| - 2 ensures !(s[1..][i] == '`' && s[1..][i + 1] == '`' && s[1..][i + 2] == '`') {
          assert s[1..][i] == s[i + 1] && s[1..][i + 1] == s[i + 2] && s[1..][i + 2] == s[i + 3];
        }
      }
      StripKeepsPlainText(s[1..]);
      assert s == [s[0]] + s[1..];
    }
  }

  /** Stripping twice is stripping once. */
  lemma StripFencesIdempotent(s: string)
    ensures StripFences(StripFences(s)) == StripFences(s)
  {
    StripLeavesNoFence(s);
    StripKeepsPlainText(StripFences(s));
  }

  /** What `JSON.parse` makes of a text: a failure, a value that is not an
      array (so `.filter` throws), or an array. */
  datatype JsonValue = JString(s: string) | JOther
  datatype Parsed = ParseFails | NotAnArray | JsonArray(items: seq<JsonValue>)

  /** `filter(r => typeof r === "string")`. */
  function StringsOf(items: seq<JsonValue>): (r: seq<string>)
    ensures |r| <= |items|
    ensures forall x :: x in r <==> JString(x) in items
    ensures (forall i :: 0 <= i < |items| ==> items[i].JString?) ==> |r| == |items|
  {
    if items == [] then []
    else
      var rest := StringsOf(items[1..]);
      assert items == [items[0]] + items[1..];
      if items[0].JString? then [items[0].s] + rest else rest
  }

  /** The strings keep their order: those of a concatenation are the strings
      of each part, one after the other. */
  lemma {:induction false} StringsOfAppend(a: seq<JsonValue>, b: seq<JsonValue>)
    ensures StringsOf(a + b) == StringsOf(a) + StringsOf(b)
  {
    if a == [] {
      assert a + b == b;
    } else {
      assert (a + b)[0] == a[0] && (a + b)[1..] == a[1..] + b;
      StringsOfAppend(a[1..], b);
    }
  }

  /** A single item is kept exactly when it is a string. */
  lemma StringsOfOne(x: JsonValue)
    ensures StringsOf([x]) == if x.JString? then [x.s] else []
  {
    assert [x][1..] == [];
  }

  /** The "improve" post-processing: the model's text (which may be
      missing), cleaned and parsed; anything that throws gives the empty list. */
  function ImproveReply(reply: Option<string>, parse: string -> Parsed): (r: seq<string>)
    ensures reply.None? ==> r == []
    ensures reply.Some? && !parse(Cleaned(reply.value)).JsonArray? ==> r == []
    ensures reply.Some? && parse(Cleaned(reply.value)).JsonArray? ==>
      r == StringsOf(parse(Cleaned(reply.value)).items)
      && forall x :: x in r <==> JString(x) in parse(Cleaned(reply.value)).items
  {
    if reply.None? then []
    else
      match parse(Cleaned(reply.value))
      case JsonArray(items) => StringsOf(items)
      case _ => []
  }

  // ---------------------------------------------------------------------
  // chatAI
  // ---------------------------------------------------------------------

  /** The model call: it throws, or returns a response whose text may be missing. */
  datatype Answer = AskThrows | Answered(text: Option<string>)

  datatype Reply = Raw(text: Option<string>) | Suggestions(items: seq<string>)

  datatype AiResponse = BadRequest(error: string) | Ok(reply: Reply) | ServerError(error: string)

  /** `chatAI`, with the corrected action check. A missing `messages` throws
      (500). A blank transcript is refused before anything else, then an
      unknown action; otherwise the prompt goes to the model, and an "improve"
      answer is cleaned and parsed. */
  function ChatAI(messages: Option<seq<Option<ChatLine>>>, action: string, tone: Option<string>, target: Option<string>,
                  ask: string -> Answer, parse: string -> Parsed): (r: AiResponse)
    ensures messages.None? ==> r == ServerError("AI failed")
    ensures messages.Some? && Trim(Transcript(messages.value)) == "" ==> r == BadRequest("No valid message content")
    ensures messages.Some? && Trim(Transcript(messages.value)) != "" && action !in ActionNames ==> r == BadRequest("Invalid AI action")
    ensures r.Ok? ==> messages.Some? && action in ActionNames
                      && ask(Prompt(ParseAction(action).value, Transcript(messages.value), tone, target)).Answered?
    ensures r.Ok? && action == "improve" ==> r.reply.Suggestions?
    ensures r.Ok? && action != "improve" ==> r.reply.Raw?
    ensures messages.Some? && Trim(Transcript(messages.value)) != "" && action in ActionNames ==>
      var answer := ask(Prompt(ParseAction(action).value, Transcript(messages.value), tone, target));
      && (answer.AskThrows? ==> r == ServerError("AI failed"))
      && (answer.Answered? && action == "improve" ==> r == Ok(Suggestions(ImproveReply(answer.text, parse))))
      && (answer.Answered? && action != "improve" ==> r == Ok(Raw(answer.text)))
  {
    if messages.None? then ServerError("AI failed")
    else
      var chatText := Transcript(messages.value);
      if Trim(chatText) == "" then BadRequest("No valid message content")
      else
        match ParseAction(action)
        case None => BadRequest("Invalid AI action")
        case Some(a) =>
          match ask(Prompt(a, chatText, tone, target))
          case AskThrows => ServerError("AI failed")
          case Answered(text) =>
            if a == Improve then Ok(Suggestions(ImproveReply(text, parse))) else Ok(Raw(text))
  }

  /** A blank transcript is refused whatever the action, before the model is asked. */
  lemma {:induction false} BlankRefusedBeforeAsking(ms: seq<Option<ChatLine>>, a1: string, a2: string,
                                                    tone: Option<string>, target: Option<string>,
                                                    ask1: string -> Answer, ask2: string -> Answer, parse: string -> Parsed)
    requires forall i :: 0 <= i < |ms| ==> !(ms[i].Some? && Truthy(ms[i].value.content))
    ensures ChatAI(Some(ms), a1, tone, target, ask1, parse) == ChatAI(Some(ms), a2, tone, target, ask2, parse)
                                                            == BadRequest("No valid message content")
  {
    BlankTranscriptIffNoContent(ms);
  }
}
