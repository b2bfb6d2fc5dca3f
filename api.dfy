/**
 * ApiService.kt: the batch client behind the translator panel. It takes the
 * next key from the shared rotation, sends one generation request with a
 * timeout that grows with the batch, maps transport failures to messages,
 * and retries once with the next key unless the failure was a timeout.
 * The HTTP exchange of each attempt and the two Gson decoders are inputs.
 */
module Api {
  import opened Wrappers
  import opened Text
  import opened Gemini
  import opened KeyRotation
  import opened Settings

  // ---------------------------------------------------------------- timeout

  /** Kotlin `Int` arithmetic: the result reduced into [-2^31, 2^31). */
  function Wrap32(x: int): (r: int)
    ensures -0x8000_0000 <= r < 0x8000_0000
    ensures (x - r) % 0x1_0000_0000 == 0
    ensures -0x8000_0000 <= x < 0x8000_0000 ==> r == x
  {
    (x + 0x8000_0000) % 0x1_0000_0000 - 0x8000_0000
  }

  predicate IsInt32(n: int) {
    -0x8000_0000 <= n < 0x8000_0000
  }

  /** `maxOf(30, minOf(300, d))` */
  function Clamp(d: int): (r: int)
    ensures 30 <= r <= 300
    ensures 30 <= d <= 300 ==> r == d
    ensures d < 30 ==> r == 30
    ensures d > 300 ==> r == 300
  {
    if d > 300 then 300 else if d < 30 then 30 else d
  }

  /** `calculateTimeout` as written: `30 + stringCount * 5` is computed in 32-bit `Int` before widening. */
  function CalculateTimeoutAsWritten(stringCount: int): (r: int)
    requires IsInt32(stringCount)
    ensures 30 <= r <= 300
  {
    Clamp(Wrap32(30 + Wrap32(stringCount * 5)))
  }

  /** `calculateTimeout` with the sum computed without overflow: 30 s plus 5 s per string, within [30, 300]. */
  function CalculateTimeout(stringCount: int): (r: int)
    ensures 30 <= r <= 300
  {
    Clamp(30 + 5 * stringCount)
  }

  /** The timeout never shrinks as the batch grows. */
  lemma TimeoutMonotone(m: int, n: int)
    requires m <= n
    ensures CalculateTimeout(m) <= CalculateTimeout(n)
  {
  }

  /** An empty batch gets the 30 s floor, a batch of 54 or more the 300 s ceiling, the rest 5 s per string on top of 30 s. */
  lemma TimeoutShape(n: int)
    ensures n <= 0 ==> CalculateTimeout(n) == 30
    ensures n >= 54 ==> CalculateTimeout(n) == 300
    ensures 0 <= n <= 54 ==> CalculateTimeout(n) == 30 + 5 * n
  {
  }

  /** As written, the timeout is the intended one for every count whose product fits in an `Int`. */
  lemma {:induction false} AsWrittenAgrees(n: int)
    requires -429496729 <= n <= 429496723
    ensures CalculateTimeoutAsWritten(n) == CalculateTimeout(n)
  {
    assert IsInt32(n * 5);
    assert IsInt32(30 + n * 5);
  }

  /** Past 429496723 strings the product wraps negative and the floor is returned instead of the ceiling. */
  lemma AsWrittenWraps()
    ensures CalculateTimeoutAsWritten(429496724) == 30
    ensures CalculateTimeout(429496724) == 300
  {
    assert Wrap32(429496724 * 5) == 2147483620;
    assert Wrap32(30 + 2147483620) == -2147483646;
  }

  // ---------------------------------------------------------------- one call

  const TimeoutPrefix := "⏰ Request timeout sau "
  const ConnectPrefix := "🔌 Không thể kết nối tới Google API. Kiểm tra kết nối internet. Chi tiết: "
  const NetworkPrefix := "🌐 Lỗi mạng khi gọi API. Chi tiết: "
  const StatusPrefix := "🚫 API request thất bại với status "
  const NoContent := "Không có nội dung trong API response"
  const ParsePrefix := "Không thể parse translation response: "

  /** The message `callGeminiAPI` throws when the client gives up waiting. */
  function TimeoutMessage(seconds: int, detail: string): string {
    TimeoutPrefix + (IntToString(seconds) + "s. Thử giảm số lượng strings hoặc kiểm tra kết nối mạng. Chi tiết: " + detail)
  }

  /** The message for a non-200 status, carrying at most 500 characters of the body. */
  function StatusMessage(status: int, body: string): string {
    StatusPrefix + IntToString(status) + ": " + Take(body, 500)
  }

  /**
   * `callGeminiAPI` given what the HTTP client did with the request: the
   * generated text of a 200 reply, or the message of the exception thrown.
   */
  function CallGeminiApi(ex: Exchange, timeoutSeconds: int, decodeEnvelope: string -> Result<GeminiResponse>): (r: Result<string>)
    ensures r.Ok? <==> ex.Answered? && ex.status == 200 && decodeEnvelope(ex.body).Ok? && GeneratedText(decodeEnvelope(ex.body).value).Some?
    ensures r.Ok? ==> r.value == GeneratedText(decodeEnvelope(ex.body).value).value
  {
    match ex
    case TimedOut(m) => Err(TimeoutMessage(timeoutSeconds, m))
    case ConnectFailed(m) => Err(ConnectPrefix + m)
    case IoFailed(m) => Err(NetworkPrefix + m)
    case Answered(status, body) =>
      if status != 200 then Err(StatusMessage(status, body))
      else match decodeEnvelope(body)
        case Err(m) => Err(m)
        case Ok(g) => if GeneratedText(g).None? then Err(NoContent) else Ok(GeneratedText(g).value)
  }

  /** An exact occurrence is an occurrence when case is ignored. */
  lemma StartsWithCaseless(s: string, p: string)
    requires StartsWith(s, p)
    ensures StartsWithIgnoreCase(s, p)
  {
    assert forall i :: 0 <= i < |p| ==> s[i] == s[..|p|][i];
  }

  /** The word "timeout" sits at position 10 of the timeout message. */
  lemma TimeoutMessageSaysTimeout(seconds: int, detail: string)
    ensures ContainsIgnoreCase(TimeoutMessage(seconds, detail), "timeout")
  {
    var tail := IntToString(seconds) + "s. Thử giảm số lượng strings hoặc kiểm tra kết nối mạng. Chi tiết: " + detail;
    TimeoutWordAt(tail);
    ContainsIgnoreCaseAt(TimeoutPrefix + tail, 10, "timeout");
  }

  lemma TimeoutWordAt(tail: string)
    ensures StartsWithIgnoreCase((TimeoutPrefix + tail)[10..], "timeout")
  {
    assert TimeoutPrefix[10..] == "timeout sau ";
    assert (TimeoutPrefix + tail)[10..] == TimeoutPrefix[10..] + tail;
    StartsWithCaseless((TimeoutPrefix + tail)[10..], "timeout");
  }

  /**
   * A transport timeout is reported with a message naming the timeout, and a
   * refused status with the status code and no more than the first 500
   * characters of the body.
   */
  lemma CallGeminiApiErrors(ex: Exchange, timeoutSeconds: int, decodeEnvelope: string -> Result<GeminiResponse>)
    ensures ex.TimedOut? ==> ContainsIgnoreCase(CallGeminiApi(ex, timeoutSeconds, decodeEnvelope).message, "timeout")
    ensures ex.Answered? && ex.status != 200 ==>
      var m := CallGeminiApi(ex, timeoutSeconds, decodeEnvelope).message;
      var head := StatusPrefix + IntToString(ex.status) + ": ";
      StartsWith(m, head) && |m| <= |head| + 500 && StartsWith(ex.body, m[|head|..])
  {
    if ex.TimedOut? {
      TimeoutMessageSaysTimeout(timeoutSeconds, ex.message);
    }
    if ex.Answered? && ex.status != 200 {
      var head := StatusPrefix + IntToString(ex.status) + ": ";
      var m := StatusMessage(ex.status, ex.body);
      assert m == head + Take(ex.body, 500);
      assert m[..|head|] == head;
      assert m[|head|..] == Take(ex.body, 500);
    }
  }

  /** One attempt: the call, then the fence clean-up and decoding of its reply. */
  function Attempt(ex: Exchange, timeoutSeconds: int, decodeEnvelope: string -> Result<GeminiResponse>,
                   decodeReply: string -> Result<TranslationResponse>): (r: Result<TranslationResponse>)
    ensures CallGeminiApi(ex, timeoutSeconds, decodeEnvelope).Err? ==> r == Err(CallGeminiApi(ex, timeoutSeconds, decodeEnvelope).message)
    ensures CallGeminiApi(ex, timeoutSeconds, decodeEnvelope).Ok? ==> r == ParseReply(decodeReply, ParsePrefix, CallGeminiApi(ex, timeoutSeconds, decodeEnvelope).value)
  {
    match CallGeminiApi(ex, timeoutSeconds, decodeEnvelope)
    case Err(m) => Err(m)
    case Ok(text) => ParseReply(decodeReply, ParsePrefix, text)
  }

  // ---------------------------------------------------------------- translateRequest

  /** The message `getApiKeys` throws on an empty list. */
  const NoKeysMessage := "Không có API key nào được cấu hình. Vui lòng thêm API key trong Settings > Tools > XML Translator"

  function TimeoutHint(message: string, batchSize: nat): string {
    "⏰ Translation timeout: " + message + "\n\n💡 Gợi ý: Thử giảm batch size xuống dưới " + NatToString(batchSize)
  }

  const FailurePrefix := "❌ Translation API thất bại: "

  /**
   * What one `translateRequest` leaves behind: its result, the cursor, and
   * the keys it drew from the rotation, in order.
   */
  datatype Outcome = Outcome(result: Result<TranslationResponse>, cursor: nat, drawn: seq<string>)

  /**
   * The try/catch of `translateRequest` once the first key `key` is drawn
   * and the cursor stands at `c1`: the first attempt, then either the retry
   * with the next key or the wrapped failure.
   */
  function AttemptSequence(ks: seq<string>, c1: nat, key: string, batchSize: nat, first: Exchange, second: Exchange,
                           decodeEnvelope: string -> Result<GeminiResponse>,
                           decodeReply: string -> Result<TranslationResponse>): (o: Outcome)
    requires c1 < |ks|
    ensures 1 <= |o.drawn| <= 2 && o.drawn[0] == key
    ensures |o.drawn| == 2 ==> o.drawn[1] == ks[c1] && o.cursor == Advance(c1, |ks|)
    ensures |o.drawn| == 1 ==> o.cursor == c1
  {
    var r1 := Attempt(first, CalculateTimeout(batchSize), decodeEnvelope, decodeReply);
    if r1.Ok? then Outcome(r1, c1, [key])
    else AfterFailure(ks, c1, key, batchSize, r1.message, second, decodeEnvelope, decodeReply)
  }

  /**
   * The catch block of `translateRequest` after the first attempt failed
   * with `message`: a retry with the next key when there is one and the
   * failure is no timeout, otherwise the wrapped failure.
   */
  function AfterFailure(ks: seq<string>, c1: nat, key: string, batchSize: nat, message: string, second: Exchange,
                        decodeEnvelope: string -> Result<GeminiResponse>,
                        decodeReply: string -> Result<TranslationResponse>): (o: Outcome)
    requires c1 < |ks|
    ensures 1 <= |o.drawn| <= 2 && o.drawn[0] == key
    ensures |o.drawn| == 2 <==> |ks| > 1 && !ContainsIgnoreCase(message, "timeout")
    ensures |o.drawn| == 2 ==> o.drawn[1] == ks[c1] && o.cursor == Advance(c1, |ks|)
    ensures |o.drawn| == 1 ==> o.cursor == c1 && o.result.Err?
  {
    var isTimeout := ContainsIgnoreCase(message, "timeout");
    if |ks| > 1 && !isTimeout then
      Outcome(Attempt(second, CalculateTimeout(batchSize), decodeEnvelope, decodeReply), Advance(c1, |ks|), [key, ks[c1]])
    else if isTimeout then Outcome(Err(TimeoutHint(message, batchSize)), c1, [key])
    else Outcome(Err(FailurePrefix + message), c1, [key])
  }

  /**
   * `translateRequest`, given the keys the settings report, the cursor, the
   * batch size and what the HTTP client does with the first and, if made,
   * the second request.
   */
  function TranslateRequestSpec(keys: Result<seq<string>>, index: nat, batchSize: nat, first: Exchange, second: Exchange,
                                decodeEnvelope: string -> Result<GeminiResponse>,
                                decodeReply: string -> Result<TranslationResponse>): Outcome
  {
    var ks := GetApiKeys(keys, NoKeysMessage);
    if ks.Err? then Outcome(Err(ks.message), index, [])
    else
      var c1 := Advance(index, |ks.value|);
      var k1 := KeyAt(ks.value, index);
      if k1.Err? then Outcome(Err(k1.message), c1, [])
      else if |k1.value| < 10 then Outcome(Err(ShortKeyMessage(|k1.value|)), c1, [k1.value])
      else AttemptSequence(ks.value, c1, k1.value, batchSize, first, second, decodeEnvelope, decodeReply)
  }

  /**
   * The keys drawn are the next ones of the rotation, at most two, and the
   * cursor ends where the rotation says it does after drawing them.
   */
  lemma DrawsFollowRotation(keys: Result<seq<string>>, index: nat, batchSize: nat, first: Exchange, second: Exchange,
                            decodeEnvelope: string -> Result<GeminiResponse>, decodeReply: string -> Result<TranslationResponse>)
    requires keys.Ok? && index < |keys.value|
    ensures var o := TranslateRequestSpec(keys, index, batchSize, first, second, decodeEnvelope, decodeReply);
      1 <= |o.drawn| <= 2 && o.drawn == Rotation(keys.value, index, |o.drawn|) && o.cursor == CursorAfter(keys.value, index, |o.drawn|)
  {
    var ks := keys.value;
    var c1 := Advance(index, |ks|);
    var o := TranslateRequestSpec(keys, index, batchSize, first, second, decodeEnvelope, decodeReply);
    FirstTwoDraws(ks, index);
    assert GetApiKeys(keys, NoKeysMessage) == keys;
    assert KeyAt(ks, index) == Ok(ks[index]);
    if |ks[index]| < 10 {
      assert o.drawn == [ks[index]] && o.cursor == c1;
    } else {
      assert o == AttemptSequence(ks, c1, ks[index], batchSize, first, second, decodeEnvelope, decodeReply);
      if |o.drawn| == 2 {
        assert o.drawn == [ks[index], ks[c1]];
      }
    }
  }

  /** The first two keys of the rotation and where the cursor then stands. */
  lemma FirstTwoDraws(ks: seq<string>, index: nat)
    requires index < |ks|
    ensures Rotation(ks, index, 1) == [ks[index]] && CursorAfter(ks, index, 1) == Advance(index, |ks|)
    ensures Rotation(ks, index, 2) == [ks[index], ks[Advance(index, |ks|)]]
    ensures CursorAfter(ks, index, 2) == Advance(Advance(index, |ks|), |ks|)
  {
    var c1 := Advance(index, |ks|);
    assert Rotation(ks, c1, 0) == [];
    assert Rotation(ks, c1, 1) == [ks[c1]] + Rotation(ks, Advance(c1, |ks|), 0);
    assert CursorAfter(ks, c1, 1) == CursorAfter(ks, Advance(c1, |ks|), 0);
  }

  /**
   * A second attempt is made exactly when the first failed, there is more
   * than one key and the failure does not mention a timeout; its result is
   * returned as it is.
   */
  lemma RetryRule(keys: Result<seq<string>>, index: nat, batchSize: nat, first: Exchange, second: Exchange,
                  decodeEnvelope: string -> Result<GeminiResponse>, decodeReply: string -> Result<TranslationResponse>)
    requires keys.Ok? && index < |keys.value| && |keys.value[index]| >= 10
    ensures var o := TranslateRequestSpec(keys, index, batchSize, first, second, decodeEnvelope, decodeReply);
      var r1 := Attempt(first, CalculateTimeout(batchSize), decodeEnvelope, decodeReply);
      (|o.drawn| == 2 <==> r1.Err? && |keys.value| > 1 && !ContainsIgnoreCase(r1.message, "timeout"))
      && (|o.drawn| == 2 ==> o.result == Attempt(second, CalculateTimeout(batchSize), decodeEnvelope, decodeReply))
      && (r1.Ok? ==> o.result == r1)
  {
  }

  /**
   * Without a second attempt a failure is wrapped: a timeout with the hint
   * naming the batch size, anything else behind the failure prefix.
   */
  lemma FailureWrapped(keys: Result<seq<string>>, index: nat, batchSize: nat, first: Exchange, second: Exchange,
                       decodeEnvelope: string -> Result<GeminiResponse>, decodeReply: string -> Result<TranslationResponse>)
    requires keys.Ok? && index < |keys.value| && |keys.value[index]| >= 10
    ensures var o := TranslateRequestSpec(keys, index, batchSize, first, second, decodeEnvelope, decodeReply);
      var r1 := Attempt(first, CalculateTimeout(batchSize), decodeEnvelope, decodeReply);
      r1.Err? && |o.drawn| == 1 ==>
        o.result == Err(if ContainsIgnoreCase(r1.message, "timeout") then TimeoutHint(r1.message, batchSize) else FailurePrefix + r1.message)
  {
  }

  /** A transport timeout on the first attempt is never retried, even with several keys. */
  lemma TimeoutNotRetried(keys: Result<seq<string>>, index: nat, batchSize: nat, first: Exchange, second: Exchange,
                          decodeEnvelope: string -> Result<GeminiResponse>, decodeReply: string -> Result<TranslationResponse>)
    requires keys.Ok? && index < |keys.value| && |keys.value[index]| >= 10
    requires first.TimedOut?
    ensures var o := TranslateRequestSpec(keys, index, batchSize, first, second, decodeEnvelope, decodeReply);
      |o.drawn| == 1 && o.result.Err? && StartsWith(o.result.message, "⏰ Translation timeout: ")
  {
    var seconds := CalculateTimeout(batchSize);
    CallGeminiApiErrors(first, seconds, decodeEnvelope);
    var r1 := Attempt(first, seconds, decodeEnvelope, decodeReply);
    DrawsFollowRotation(keys, index, batchSize, first, second, decodeEnvelope, decodeReply);
    RetryRule(keys, index, batchSize, first, second, decodeEnvelope, decodeReply);
    FailureWrapped(keys, index, batchSize, first, second, decodeEnvelope, decodeReply);
    TimeoutHintPrefix(r1.message, batchSize);
  }

  /** The timeout hint opens with the timeout heading. */
  lemma TimeoutHintPrefix(message: string, batchSize: nat)
    ensures StartsWith(TimeoutHint(message, batchSize), "⏰ Translation timeout: ")
  {
    assert TimeoutHint(message, batchSize)
      == "⏰ Translation timeout: " + (message + "\n\n💡 Gợi ý: Thử giảm batch size xuống dưới " + NatToString(batchSize));
  }

  /** The client: the cursor it owns, the settings it reads, and the Gson decoders. */
  class ApiService {
    const cursor: KeyCursor
    const settings: XmlTranslatorSettings
    const decodeEnvelope: string -> Result<GeminiResponse>
    const decodeReply: string -> Result<TranslationResponse>

    constructor (settings: XmlTranslatorSettings, decodeEnvelope: string -> Result<GeminiResponse>,
                 decodeReply: string -> Result<TranslationResponse>)
      ensures this.settings == settings && fresh(cursor) && cursor.index == 0
      ensures this.decodeEnvelope == decodeEnvelope && this.decodeReply == decodeReply
    {
      this.settings := settings;
      this.decodeEnvelope := decodeEnvelope;
      this.decodeReply := decodeReply;
      cursor := new KeyCursor();
    }

    /** `getApiKeys` */
    method ApiKeys() returns (r: Result<seq<string>>)
      ensures r == GetApiKeys(settings.ValidKeys(), NoKeysMessage)
    {
      var valid := settings.GetValidApiKeys();
      r := GetApiKeys(valid, NoKeysMessage);
    }

    /** `getNextApiKey` */
    method NextApiKey() returns (key: Result<string>)
      modifies cursor
      ensures unchanged(settings)
      ensures var ks := GetApiKeys(settings.ValidKeys(), NoKeysMessage);
        if ks.Err? then key == Err(ks.message) && cursor.index == old(cursor.index)
        else key == KeyAt(ks.value, old(cursor.index)) && cursor.index == Advance(old(cursor.index), |ks.value|)
    {
      var keys := ApiKeys();
      key := cursor.NextApiKey(keys);
    }

    /**
     * `translateRequest`: `first` and `second` are what the HTTP client does
     * with the first request and with the retry, if one is sent.
     */
    method TranslateRequest(request: TranslationRequest, first: Exchange, second: Exchange) returns (r: Result<TranslationResponse>)
      modifies cursor
      ensures var o := TranslateRequestSpec(old(settings.ValidKeys()), old(cursor.index), |request.strings|, first, second, decodeEnvelope, decodeReply);
        r == o.result && cursor.index == o.cursor
    {
      ghost var valid := settings.ValidKeys();
      ghost var ks := GetApiKeys(valid, NoKeysMessage);
      ghost var index := cursor.index;
      var apiKey := NextApiKey();
      assert settings.ValidKeys() == valid;
      if apiKey.Err? {
        return Err(apiKey.message);
      }
      if |apiKey.value| < 10 {
        return Err(ShortKeyMessage(|apiKey.value|));
      }
      assert ks.Ok? && apiKey == KeyAt(ks.value, index);
      r := AttemptWithRetry(|request.strings|, apiKey.value, first, second);
    }

    /** The try/catch of `translateRequest`, once the first key is drawn. */
    method AttemptWithRetry(batchSize: nat, apiKey: string, first: Exchange, second: Exchange) returns (r: Result<TranslationResponse>)
      requires GetApiKeys(settings.ValidKeys(), NoKeysMessage).Ok?
      requires cursor.index < |GetApiKeys(settings.ValidKeys(), NoKeysMessage).value|
      modifies cursor
      ensures var o := AttemptSequence(old(GetApiKeys(settings.ValidKeys(), NoKeysMessage).value), old(cursor.index), apiKey,
                                       batchSize, first, second, decodeEnvelope, decodeReply);
        r == o.result && cursor.index == o.cursor
    {
      var seconds := CalculateTimeout(batchSize);
      var response := Attempt(first, seconds, decodeEnvelope, decodeReply);
      if response.Ok? {
        return response;
      }
      r := RetryOrWrap(batchSize, apiKey, response.message, second);
    }

    /** The catch block of `translateRequest`: retry with the next key, or wrap the failure. */
    method RetryOrWrap(batchSize: nat, apiKey: string, message: string, second: Exchange) returns (r: Result<TranslationResponse>)
      requires GetApiKeys(settings.ValidKeys(), NoKeysMessage).Ok?
      requires cursor.index < |GetApiKeys(settings.ValidKeys(), NoKeysMessage).value|
      modifies cursor
      ensures var o := AfterFailure(old(GetApiKeys(settings.ValidKeys(), NoKeysMessage).value), old(cursor.index), apiKey,
                                    batchSize, message, second, decodeEnvelope, decodeReply);
        r == o.result && cursor.index == o.cursor
    {
      ghost var ks := GetApiKeys(settings.ValidKeys(), NoKeysMessage).value;
      ghost var o := AfterFailure(ks, cursor.index, apiKey, batchSize, message, second, decodeEnvelope, decodeReply);
      var seconds := CalculateTimeout(batchSize);
      var isTimeoutError := ContainsIgnoreCase(message, "timeout");
      // The settings have not changed since the first key was drawn, so the list is the same.
      var keys := ApiKeys();
      if |keys.value| > 1 && !isTimeoutError {
        // The cursor was just reduced modulo the list length, so the retry key exists.
        ghost var valid := settings.ValidKeys();
        var retryApiKey := NextApiKey();
        assert settings.ValidKeys() == valid;
        r := Attempt(second, seconds, decodeEnvelope, decodeReply);
        assert r == o.result && cursor.index == o.cursor;
      } else if isTimeoutError {
        r := Err(TimeoutHint(message, batchSize));
        assert r == o.result;
      } else {
        r := Err(FailurePrefix + message);
        assert r == o.result;
      }
    }
  }
}
