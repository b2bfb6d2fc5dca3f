/**
 * The request and reply shapes both translation services exchange with the
 * Gemini endpoint (TranslationService.kt and ApiService.kt each declare the
 * same data classes), what the HTTP client hands back for one request, and
 * the clean-up both services apply to the model's reply before decoding it.
 */
module Gemini {
  import opened Wrappers
  import opened Text

  /** One string sent for translation; a lone text is sent without a name. */
  datatype StringItem = StringItem(id: int, text: string, name: Option<string>)

  datatype TranslationRequest = TranslationRequest(sourceLanguage: string, targetLanguage: string, strings: seq<StringItem>)

  datatype TranslatedItem = TranslatedItem(id: int, text: string)

  /** The decoded answer; `translations` is `None` when the reply has no such field and Gson leaves it null. */
  datatype TranslationResponse = TranslationResponse(translations: Option<seq<TranslatedItem>>)

  /** The envelope of a generation reply, with the fields Gson may leave null as `Option`. */
  datatype Part = Part(text: Option<string>)
  datatype Content = Content(parts: Option<seq<Part>>)
  datatype Candidate = Candidate(content: Option<Content>)
  datatype GeminiResponse = GeminiResponse(candidates: Option<seq<Candidate>>)

  /** `candidates?.firstOrNull()?.content?.parts?.firstOrNull()?.text` */
  function GeneratedText(g: GeminiResponse): Option<string> {
    if g.candidates.None? || |g.candidates.value| == 0 then None
    else
      var c := g.candidates.value[0];
      if c.content.None? || c.content.value.parts.None? || |c.content.value.parts.value| == 0 then None
      else c.content.value.parts.value[0].text
  }

  /** What `httpClient.send` does with one request: an answer, or one of the exceptions it throws. */
  datatype Exchange =
    | Answered(status: int, body: string)
    | TimedOut(message: string)       // java.net.http.HttpTimeoutException
    | ConnectFailed(message: string)  // java.net.ConnectException
    | IoFailed(message: string)       // any other java.io.IOException

  // ---------------------------------------------------------------- reply clean-up

  /**
   * `parseGeminiResponse`'s clean-up: the fence markers "```json\n", "\n```",
   * "```json" and "```" are removed, in that order, then the text is trimmed.
   */
  function CleanReply(reply: string): string {
    var a := ReplaceAll(reply, "```json\n", "");
    var b := ReplaceAll(a, "\n```", "");
    var c := ReplaceAll(b, "```json", "");
    Trim(ReplaceAll(c, "```", ""))
  }

  /** `parseGeminiResponse`: the cleaned reply decoded by Gson; a failure is reported behind `prefix`. */
  function ParseReply(decode: string -> Result<TranslationResponse>, prefix: string, reply: string): (r: Result<TranslationResponse>)
    ensures r.Ok? <==> decode(CleanReply(reply)).Ok?
    ensures r.Ok? ==> r.value == decode(CleanReply(reply)).value
    ensures r.Err? ==> r.message == prefix + decode(CleanReply(reply)).message
  {
    match decode(CleanReply(reply))
    case Ok(response) => Ok(response)
    case Err(m) => Err(prefix + m)
  }

  /** Whatever the reply, the cleaned text holds no "```". */
  lemma CleanReplyHasNoFence(reply: string)
    ensures !Contains(CleanReply(reply), "```")
  {
    var a := ReplaceAll(reply, "```json\n", "");
    var b := ReplaceAll(a, "\n```", "");
    var c := ReplaceAll(b, "```json", "");
    var d := ReplaceAll(c, "```", "");
    NoFenceLeft(c);
    SliceContained(d, TrimOffset(d), TrimOffset(d) + |Trim(d)|, "```");
  }

  /** A reply without backticks is only trimmed. */
  lemma PlainReplyTrimmed(reply: string)
    requires '`' !in reply
    ensures CleanReply(reply) == Trim(reply)
  {
    MissingCharNotContained(reply, "```json\n", 0);
    ReplaceAllAbsent(reply, "```json\n", "");
    MissingCharNotContained(reply, "\n```", 1);
    ReplaceAllAbsent(reply, "\n```", "");
    MissingCharNotContained(reply, "```json", 0);
    ReplaceAllAbsent(reply, "```json", "");
    MissingCharNotContained(reply, "```", 0);
    ReplaceAllAbsent(reply, "```", "");
  }

  /** A body fenced as a JSON code block comes back unfenced and trimmed. */
  lemma FencedReplyUnwrapped(body: string)
    requires '`' !in body
    ensures CleanReply("```json\n" + body + "\n```") == Trim(body)
  {
    OpeningFenceRemoved(body);
    ClosingFenceRemoved(body);
    MissingCharNotContained(body, "```json", 0);
    ReplaceAllAbsent(body, "```json", "");
    MissingCharNotContained(body, "```", 0);
    ReplaceAllAbsent(body, "```", "");
  }

  /** The first step removes the opening fence and nothing else. */
  lemma OpeningFenceRemoved(body: string)
    requires '`' !in body
    ensures ReplaceAll("```json\n" + body + "\n```", "```json\n", "") == body + "\n```"
  {
    var y := body + "\n```";
    var s := "```json\n" + y;
    assert "```json\n" + body + "\n```" == s;
    assert s[8..] == y;
    HeadMissingNotContained(body, "\n```", "```json\n");
    ReplaceAllAbsent(y, "```json\n", "");
  }

  /** The second step removes the closing fence and nothing else. */
  lemma ClosingFenceRemoved(body: string)
    requires '`' !in body
    ensures ReplaceAll(body + "\n```", "\n```", "") == body
  {
    var y := body + "\n```";
    forall j | 0 <= j < |body|
      ensures !StartsWith((body + "\n```")[j..], "\n```")
    {
      assert y[j + 1] != '`';
    }
    ReplaceAllSkip(body, "\n```", "\n```", "");
    assert ReplaceAll("\n```", "\n```", "") == "";
    assert body + "" == body;
  }

  /** Removing "```" from a text that does not start with two backticks leaves one that does not either. */
  lemma TicksStayShort(t: string)
    ensures !StartsWith(t, "``") ==> !StartsWith(ReplaceAll(t, "```", ""), "``")
  {
    if |t| > 0 && !StartsWith(t, "``") {
      assert !StartsWith(t, "```");
      var rest := ReplaceAll(t[1..], "```", "");
      assert ReplaceAll(t, "```", "") == [t[0]] + rest;
      if |t| > 1 && t[0] == '`' {
        assert t[1] != '`';
        assert !StartsWith(t[1..], "```");
        assert rest == [t[1]] + ReplaceAll(t[2..], "```", "");
      }
    }
  }

  /** Removing every "```" leaves none: what is copied never lines up three backticks. */
  lemma {:induction false} NoFenceLeft(t: string)
    ensures !Contains(ReplaceAll(t, "```", ""), "```")
    decreases |t|
  {
    if |t| > 0 {
      if StartsWith(t, "```") {
        NoFenceLeft(t[3..]);
        assert ReplaceAll(t, "```", "") == "" + ReplaceAll(t[3..], "```", "");
        assert "" + ReplaceAll(t[3..], "```", "") == ReplaceAll(t[3..], "```", "");
      } else {
        NoFenceLeft(t[1..]);
        var rest := ReplaceAll(t[1..], "```", "");
        var r := [t[0]] + rest;
        assert ReplaceAll(t, "```", "") == r;
        assert r[1..] == rest;
        if t[0] == '`' {
          assert !StartsWith(t[1..], "``");
          TicksStayShort(t[1..]);
          if |r| >= 3 {
            assert r[1..3] == rest[..2];
          }
        } else if |r| >= 3 {
          assert r[..3][0] == t[0];
        }
        assert !StartsWith(r, "```");
      }
    }
  }
}
