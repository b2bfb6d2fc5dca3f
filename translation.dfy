/**
 * The translation client of TranslationService.kt: one call to the Gemini
 * endpoint, `makeTranslationRequest` with its retry on the next key, and
 * the two entry points built on it, `translateStrings` (a batch, ids 1..n,
 * answers paired by position) and `translateText` (a single text).
 *
 * The remote side is a `Remote`: what the HTTP client does with the k-th
 * request this service sends (given the key and the request), and the two
 * Gson decoders. The requests sent are recorded in a log, so that what was
 * asked for, with which key and in which order, can be stated.
 */
module Translation {
  import opened Wrappers
  import opened Text
  import opened Gemini
  import opened KeyRotation

  /** The remote endpoint and the decoders, fixed for the life of the service. */
  datatype Remote = Remote(
    network: (nat, string, TranslationRequest) -> Exchange,
    decodeEnvelope: string -> Result<GeminiResponse>,
    decodeReply: string -> Result<TranslationResponse>)

  /** One request as it went out: the key in the URL and the batch in the prompt. */
  datatype Sent = Sent(key: string, request: TranslationRequest)

  /** The service's own state: the key cursor, and the requests sent so far. */
  datatype Client = Client(cursor: nat, log: seq<Sent>)

  /** A result together with the state the service is left in. */
  datatype Reply<T> = Reply(result: T, client: Client)

  /** The message `getApiKeys` throws on an empty list. */
  const NoKeysMessage := "No API keys configured. Please add API keys in Settings > Tools > XML Translator"

  // ---------------------------------------------------------------- one call

  /**
   * `callGeminiAPI` given what the HTTP client did: the generated text of a
   * 200 reply; otherwise the exception, whose message is passed on as it is.
   */
  function CallGeminiApi(ex: Exchange, decodeEnvelope: string -> Result<GeminiResponse>): (r: Result<string>)
    ensures r.Ok? <==> ex.Answered? && ex.status == 200 && decodeEnvelope(ex.body).Ok? && GeneratedText(decodeEnvelope(ex.body).value).Some?
    ensures r.Ok? ==> r.value == GeneratedText(decodeEnvelope(ex.body).value).value
    ensures ex.TimedOut? || ex.ConnectFailed? || ex.IoFailed? ==> r == Err(ex.message)
    ensures ex.Answered? && ex.status != 200 ==> r.Err? && EndsWith(r.message, ex.body)
  {
    match ex
    case TimedOut(m) => Err(m)
    case ConnectFailed(m) => Err(m)
    case IoFailed(m) => Err(m)
    case Answered(status, body) =>
      if status != 200 then
        var head := "API request failed with status " + IntToString(status) + ": ";
        assert (head + body)[|head|..] == body;
        Err(head + body)
      else match decodeEnvelope(body)
        case Err(m) => Err(m)
        case Ok(g) => if GeneratedText(g).None? then Err("No content in API response") else Ok(GeneratedText(g).value)
  }

  /** The call made as the `index`-th request, then the clean-up and decoding of its reply. */
  function Send(remote: Remote, index: nat, key: string, request: TranslationRequest): (r: Result<TranslationResponse>)
    ensures CallGeminiApi(remote.network(index, key, request), remote.decodeEnvelope).Err? ==>
      r == Err(CallGeminiApi(remote.network(index, key, request), remote.decodeEnvelope).message)
  {
    match CallGeminiApi(remote.network(index, key, request), remote.decodeEnvelope)
    case Err(m) => Err(m)
    case Ok(text) => ParseReply(remote.decodeReply, "Failed to parse translation response: ", text)
  }

  // ---------------------------------------------------------------- makeTranslationRequest

  /**
   * The try/catch of `makeTranslationRequest` once the first key is drawn and
   * the cursor stands at `c.cursor`: one call, and on failure a second one
   * with the next key when there is more than one key; otherwise the first
   * error is rethrown.
   */
  function Attempts(ks: seq<string>, c: Client, key: string, request: TranslationRequest, remote: Remote): (r: Reply<Result<TranslationResponse>>)
    requires c.cursor < |ks|
  {
    var r1 := Send(remote, |c.log|, key, request);
    var log1 := c.log + [Sent(key, request)];
    if r1.Ok? then Reply(r1, Client(c.cursor, log1))
    else if |ks| > 1 then
      var retryKey := ks[c.cursor];
      Reply(Send(remote, |log1|, retryKey, request), Client(Advance(c.cursor, |ks|), log1 + [Sent(retryKey, request)]))
    else Reply(r1, Client(c.cursor, log1))
  }

  /** `makeTranslationRequest` for the keys the settings report. */
  function MakeTranslationRequest(keys: Result<seq<string>>, c: Client, request: TranslationRequest, remote: Remote): (r: Reply<Result<TranslationResponse>>)
    ensures c.log <= r.client.log && |r.client.log| <= |c.log| + 2
    ensures forall i :: |c.log| <= i < |r.client.log| ==> r.client.log[i].request == request
  {
    var ks := GetApiKeys(keys, NoKeysMessage);
    if ks.Err? then Reply(Err(ks.message), c)
    else
      var c1 := Advance(c.cursor, |ks.value|);
      var k1 := KeyAt(ks.value, c.cursor);
      if k1.Err? then Reply(Err(k1.message), Client(c1, c.log))
      else if |k1.value| < 10 then Reply(Err(ShortKeyMessage(|k1.value|)), Client(c1, c.log))
      else
        var r := Attempts(ks.value, Client(c1, c.log), k1.value, request, remote);
        assert c.log <= r.client.log;
        r
  }

  /** The keys of the requests sent from position `from` of the log on. */
  function KeysSent(log: seq<Sent>, from: nat): (r: seq<string>)
    requires from <= |log|
    ensures |r| == |log| - from
    ensures forall i :: 0 <= i < |r| ==> r[i] == log[from + i].key
    decreases |log| - from
  {
    if from == |log| then [] else [log[from].key] + KeysSent(log, from + 1)
  }

  /**
   * With a key list and the cursor inside it, the keys of the requests sent
   * are the next ones of the rotation and the cursor ends where the rotation
   * leaves it; a second request is sent exactly when the first failed and
   * there is more than one key, and its result is the result.
   */
  lemma MakeRequestFollowsRotation(ks: seq<string>, c: Client, request: TranslationRequest, remote: Remote)
    requires c.cursor < |ks| && |ks[c.cursor]| >= 10
    ensures var r := MakeTranslationRequest(Ok(ks), c, request, remote);
      var sent := |r.client.log| - |c.log|;
      var first := Send(remote, |c.log|, ks[c.cursor], request);
      && 1 <= sent <= 2
      && KeysSent(r.client.log, |c.log|) == Rotation(ks, c.cursor, sent)
      && r.client.cursor == CursorAfter(ks, c.cursor, sent)
      && (sent == 2 <==> first.Err? && |ks| > 1)
      && (sent == 1 ==> r.result == first)
      && (sent == 2 ==> r.result == Send(remote, |c.log| + 1, ks[Advance(c.cursor, |ks|)], request))
  {
    var c1 := Advance(c.cursor, |ks|);
    var r := MakeTranslationRequest(Ok(ks), c, request, remote);
    assert r == Attempts(ks, Client(c1, c.log), ks[c.cursor], request, remote);
    var keysSent := KeysSent(r.client.log, |c.log|);
    assert Rotation(ks, c1, 0) == [];
    assert Rotation(ks, c1, 1) == [ks[c1]] + Rotation(ks, Advance(c1, |ks|), 0);
    assert CursorAfter(ks, c1, 1) == CursorAfter(ks, Advance(c1, |ks|), 0);
    if |r.client.log| == |c.log| + 1 {
      assert keysSent == [ks[c.cursor]];
    } else {
      assert keysSent == [ks[c.cursor], ks[c1]];
    }
  }

  /** Without keys nothing is sent and the cursor stays; the error is the one reported. */
  lemma NoKeysNothingSent(keys: Result<seq<string>>, c: Client, request: TranslationRequest, remote: Remote)
    requires keys.Err? || |keys.value| == 0
    ensures var r := MakeTranslationRequest(keys, c, request, remote);
      r.client == c && r.result.Err?
      && r.result.message == (if keys.Err? then keys.message else NoKeysMessage)
  {
  }

  // ---------------------------------------------------------------- translateStrings / translateText

  /** `mapIndexed { index, (name, text) -> StringItem(index + 1, text, name) }`, numbering from `next`. */
  function Items(pairs: seq<(string, string)>, next: int): (r: seq<StringItem>)
    ensures |r| == |pairs|
    ensures forall i :: 0 <= i < |pairs| ==> r[i] == StringItem(next + i, pairs[i].1, Some(pairs[i].0))
    decreases |pairs|
  {
    if |pairs| == 0 then [] else [StringItem(next, pairs[0].1, Some(pairs[0].0))] + Items(pairs[1..], next + 1)
  }

  /** `zip`, then each pair mapped to the first element's first and the second element's second. */
  function Zip<A, B>(xs: seq<(string, A)>, ys: seq<(B, string)>): (r: seq<(string, string)>)
    ensures |r| == if |xs| < |ys| then |xs| else |ys|
    ensures forall i :: 0 <= i < |r| ==> r[i] == (xs[i].0, ys[i].1)
    decreases |xs|
  {
    if |xs| == 0 || |ys| == 0 then [] else [(xs[0].0, ys[0].1)] + Zip(xs[1..], ys[1..])
  }

  /** The translated items as (id, text) pairs, the shape `Zip` takes. */
  function Texts(ts: seq<TranslatedItem>): (r: seq<(int, string)>)
    ensures |r| == |ts|
    ensures forall i :: 0 <= i < |ts| ==> r[i] == (ts[i].id, ts[i].text)
    decreases |ts|
  {
    if |ts| == 0 then [] else [(ts[0].id, ts[0].text)] + Texts(ts[1..])
  }

  /** The request `translateStrings` builds. */
  function StringsRequest(pairs: seq<(string, string)>, sourceLang: string, targetLang: string): TranslationRequest {
    TranslationRequest(sourceLang, targetLang, Items(pairs, 1))
  }

  /**
   * `translateStrings`: the names paired by position with the answer's
   * texts, or the input when anything fails, including an answer without
   * `translations` (zipping with null throws inside the `try`).
   */
  function TranslateStrings(keys: Result<seq<string>>, c: Client, pairs: seq<(string, string)>, sourceLang: string, targetLang: string,
                            remote: Remote): (r: Reply<seq<(string, string)>>)
    ensures c.log <= r.client.log
    ensures forall i :: |c.log| <= i < |r.client.log| ==> r.client.log[i].request == StringsRequest(pairs, sourceLang, targetLang)
  {
    var response := MakeTranslationRequest(keys, c, StringsRequest(pairs, sourceLang, targetLang), remote);
    if response.result.Err? || response.result.value.translations.None? then Reply(pairs, response.client)
    else Reply(Zip(pairs, Texts(response.result.value.translations.value)), response.client)
  }

  /**
   * The request numbers the strings 1..n in input order and carries their
   * names; the answer keeps the input names in order, pairs them by
   * position with the translated texts (ids are not looked at), and is
   * cut to the shorter side; a failure, or an answer without
   * `translations`, gives back the input.
   */
  lemma TranslateStringsMeans(keys: Result<seq<string>>, c: Client, pairs: seq<(string, string)>, sourceLang: string, targetLang: string,
                              remote: Remote)
    ensures var rq := StringsRequest(pairs, sourceLang, targetLang);
      forall i :: 0 <= i < |pairs| ==> rq.strings[i].id == i + 1 && rq.strings[i].text == pairs[i].1 && rq.strings[i].name == Some(pairs[i].0)
    ensures var r := TranslateStrings(keys, c, pairs, sourceLang, targetLang, remote);
      var response := MakeTranslationRequest(keys, c, StringsRequest(pairs, sourceLang, targetLang), remote);
      && |r.result| <= |pairs|
      && (forall i :: 0 <= i < |r.result| ==> r.result[i].0 == pairs[i].0)
      && (response.result.Err? || response.result.value.translations.None? ==> r.result == pairs)
      && (response.result.Ok? && response.result.value.translations.Some? ==>
            var ts := response.result.value.translations.value;
            |r.result| == (if |pairs| < |ts| then |pairs| else |ts|)
            && forall i :: 0 <= i < |r.result| ==> r.result[i].1 == ts[i].text)
  {
  }

  /** Pairing a batch with its own translation by position changes nothing. */
  lemma ZipWithOwnTranslation(batch: seq<(string, string)>, translated: seq<(string, string)>)
    requires |translated| <= |batch|
    requires forall i :: 0 <= i < |translated| ==> translated[i].0 == batch[i].0
    ensures Zip(batch, translated) == translated
  {
  }

  /** `translateText`: the first translated text, or the input when the answer is empty or null or anything fails. */
  function TranslateText(keys: Result<seq<string>>, c: Client, text: string, sourceLang: string, targetLang: string,
                         remote: Remote): (r: Reply<string>)
    ensures c.log <= r.client.log
  {
    var request := TranslationRequest(sourceLang, targetLang, [StringItem(1, text, None)]);
    var response := MakeTranslationRequest(keys, c, request, remote);
    if response.result.Err? || response.result.value.translations.None? || |response.result.value.translations.value| == 0 then
      Reply(text, response.client)
    else Reply(response.result.value.translations.value[0].text, response.client)
  }

  /**
   * `translateText` asks for one string numbered 1 and never fails: it gives
   * the first translated text, or the input when the request fails or the
   * answer is empty or has no `translations`; without keys nothing is sent
   * and the input comes back.
   */
  lemma TranslateTextMeans(keys: Result<seq<string>>, c: Client, text: string, sourceLang: string, targetLang: string,
                           remote: Remote)
    ensures var request := TranslationRequest(sourceLang, targetLang, [StringItem(1, text, None)]);
      var response := MakeTranslationRequest(keys, c, request, remote);
      var r := TranslateText(keys, c, text, sourceLang, targetLang, remote);
      && r.client == response.client
      && (response.result.Err? ==> r.result == text)
      && (response.result.Ok? && response.result.value.translations.Some? && |response.result.value.translations.value| > 0 ==>
            r.result == response.result.value.translations.value[0].text)
      && (response.result.Ok? && (response.result.value.translations.None? || |response.result.value.translations.value| == 0) ==>
            r.result == text)
    ensures keys.Err? || |keys.value| == 0 ==> TranslateText(keys, c, text, sourceLang, targetLang, remote) == Reply(text, c)
  {
    if keys.Err? || |keys.value| == 0 {
      NoKeysNothingSent(keys, c, TranslationRequest(sourceLang, targetLang, [StringItem(1, text, None)]), remote);
    }
  }
}
