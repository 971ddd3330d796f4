/** The theme-store client's guarded, signed POST requests: install
    tracking and rating submission.

    Signing, the "key registered" flag, the HTTP exchanges and marking the
    key registered are foreign calls; their outcomes are inputs. What the
    model decides is the control flow between them: which bodies are sent,
    whether the public key goes along, whether one retry happens, when the
    key is marked registered, and the `ApiResult` returned.
 */
module ThemeStoreApi {
  import opened Wrappers
  import Text

  const ThemeIdMaxLength: nat := 128
  const PublicKeyRequired: string := "PUBLIC_KEY_REQUIRED"
  const InvalidThemeId: string := "Invalid theme ID"
  const InvalidRating: string := "Rating must be an integer between 1 and 5"

  /** A character of the theme-id pattern `[a-zA-Z0-9_-]`. */
  predicate IsThemeIdChar(c: char) {
    ('a' <= c <= 'z') || ('A' <= c <= 'Z') || ('0' <= c <= '9') || c == '_' || c == '-'
  }

  /** A character `encodeURIComponent` leaves as it is: an ASCII letter or
      digit, or one of `-_.!~*'()` (section 19.2.6.5 of ECMA-262). */
  predicate IsUriUnreserved(c: char) {
    || ('a' <= c <= 'z') || ('A' <= c <= 'Z') || ('0' <= c <= '9')
    || c == '-' || c == '_' || c == '.' || c == '!' || c == '~' || c == '*' || c == '\'' || c == '(' || c == ')'
  }

  /** `isValidThemeId`: 1 to 128 characters, each from the pattern. Every
      pattern character is ASCII, so the UTF-16 length JavaScript measures
      agrees with `|id|`, and none is escaped by `encodeURIComponent`, so a
      valid id goes into the request path as it is. */
  predicate IsValidThemeId(id: string): (b: bool)
    ensures b ==> 0 < |id| <= ThemeIdMaxLength
    ensures b ==> forall i :: 0 <= i < |id| ==> id[i] as int < 128 && IsUriUnreserved(id[i])
  {
    && |id| > 0
    && |id| <= ThemeIdMaxLength
    && forall i :: 0 <= i < |id| ==> IsThemeIdChar(id[i])
  }

  /** The pattern `^[a-zA-Z0-9_-]+$` read as a recogniser: one pattern
      character, then either the end or another match. */
  predicate MatchesIdPattern(s: string)
    decreases |s|
  {
    && s != []
    && IsThemeIdChar(s[0])
    && (|s| == 1 || MatchesIdPattern(s[1..]))
  }

  /** The id rule is the pattern plus the length bound. */
  lemma {:induction false} ValidThemeIdIsPattern(id: string)
    ensures IsValidThemeId(id) <==> MatchesIdPattern(id) && |id| <= ThemeIdMaxLength
    decreases |id|
  {
    if |id| > 1 {
      ValidThemeIdIsPattern(id[1..]);
      assert forall i :: 1 <= i < |id| ==> id[1..][i - 1] == id[i];
      if MatchesIdPattern(id) && |id| <= ThemeIdMaxLength {
        assert IsValidThemeId(id[1..]);
        forall i | 0 <= i < |id|
          ensures IsThemeIdChar(id[i])
        {
          if i > 0 {
            assert id[1..][i - 1] == id[i];
          }
        }
      }
    }
  }

  /** Growing a valid id by one character keeps it valid exactly when the
      character is a pattern character and the id had room left. */
  lemma {:induction false} AppendThemeIdChar(id: string, c: char)
    requires IsValidThemeId(id)
    ensures IsValidThemeId(id + [c]) <==> IsThemeIdChar(c) && |id| < ThemeIdMaxLength
  {
    var t := id + [c];
    assert t[|id|] == c;
    if IsThemeIdChar(c) && |id| < ThemeIdMaxLength {
      forall i | 0 <= i < |t|
        ensures IsThemeIdChar(t[i])
      {
        if i < |id| {
          assert t[i] == id[i];
        }
      }
    }
  }

  /** `isValidRating`: `Number.isInteger(rating)` and 1 <= rating <= 5;
      the valid ratings are exactly the five whole stars. */
  predicate IsValidRating(rating: real): (b: bool)
    ensures b <==> rating == 1.0 || rating == 2.0 || rating == 3.0 || rating == 4.0 || rating == 5.0
  {
    var n := rating.Floor;
    assert n as real == rating && 1.0 <= rating <= 5.0 ==> 1 <= n <= 5;
    n as real == rating && 1.0 <= rating <= 5.0
  }

  /** The output of `signInstall` / `signRating`. */
  datatype Signed = Signed(payload: string, signature: string, publicKey: string)

  /** A JSON request body; `publicKey` is present only when sent. */
  datatype Body = Body(payload: string, signature: string, publicKey: Option<string>)

  /** An HTTP response: its status, the `error` field of its JSON body as
      read on the 400 path (`None` when the body is not JSON or has no
      such string), and the outcome of reading its JSON on the success
      path. */
  datatype Response<D> = Response(status: int, errorCode: Option<string>, json: Attempt<D>) {
    /** `response.ok`. */
    predicate Ok() {
      200 <= status <= 299
    }
  }

  /** `{ success, data, error }`; absent fields are `None`. */
  datatype ApiResult<T> = ApiResult(success: bool, data: Option<T>, error: Option<string>)

  /** One call: the bodies POSTed in order, whether `markKeyRegistered`
      was called, and the result. */
  datatype Exchange<T> = Exchange(sent: seq<Body>, marked: bool, result: ApiResult<T>)

  /** The `catch` clause: an `Error`'s message, else "Network error". */
  function Caught<T>(e: Thrown): (r: ApiResult<T>)
    ensures !r.success && r.data.None?
    ensures e.ErrorObject? ==> r.error == Some(e.message)
    ensures e.NonError? ==> r.error == Some("Network error")
  {
    ApiResult(false, None, Some(if e.ErrorObject? then e.message else "Network error"))
  }

  /** Whether the first response asks for the public key to be re-sent:
      status 400, key believed registered, and the server's error code. */
  predicate AsksForKey<D>(keyRegistered: bool, r: Response<D>) {
    r.status == 400 && keyRegistered && r.errorCode == Some(PublicKeyRequired)
  }

  /** The response the call ends on: the retry's when there was one. */
  function FinalResponse<D>(registered: Attempt<bool>, first: Attempt<Response<D>>,
                            second: Attempt<Response<D>>): Attempt<Response<D>>
  {
    if registered.Done? && first.Done? && AsksForKey(registered.value, first.value) then second else first
  }

  /** The shared body of `trackInstall` and `submitRating` after their
      argument checks. `failure` is the text the non-ok error message
      starts with. */
  function SignedPost<D>(failure: string, signing: Attempt<Signed>, registered: Attempt<bool>,
                         first: Attempt<Response<D>>, second: Attempt<Response<D>>,
                         mark: Attempt<()>): (x: Exchange<D>)
    ensures |x.sent| <= 2
    ensures x.sent != [] <==> signing.Done? && registered.Done?
    ensures x.sent != [] ==> x.sent[0].payload == signing.value.payload
                             && x.sent[0].signature == signing.value.signature
    ensures x.sent != [] ==> (x.sent[0].publicKey.Some? <==> !registered.value)
    ensures x.sent != [] && x.sent[0].publicKey.Some? ==> x.sent[0].publicKey.value == signing.value.publicKey
    ensures |x.sent| == 2 <==> x.sent != [] && first.Done? && AsksForKey(registered.value, first.value)
    ensures |x.sent| == 2 ==> x.sent[1] == x.sent[0].(publicKey := Some(signing.value.publicKey))
    ensures x.marked <==> x.sent != [] && x.sent[|x.sent| - 1].publicKey.Some?
                          && FinalResponse(registered, first, second).Done?
                          && FinalResponse(registered, first, second).value.Ok()
    ensures x.result.success <==> x.sent != []
                                  && FinalResponse(registered, first, second).Done?
                                  && FinalResponse(registered, first, second).value.Ok()
                                  && FinalResponse(registered, first, second).value.json.Done?
                                  && (x.sent[|x.sent| - 1].publicKey.Some? ==> mark.Done?)
    ensures x.result.success ==> x.result.data == Some(FinalResponse(registered, first, second).value.json.value)
                                 && x.result.error.None?
    ensures !x.result.success ==> x.result.data.None? && x.result.error.Some?
    ensures signing.Throws? ==> x.result == Caught(signing.thrown)
    ensures signing.Done? && registered.Throws? ==> x.result == Caught(registered.thrown)
    ensures x.sent != [] && first.Throws? ==> x.result == Caught(first.thrown)
    ensures |x.sent| == 2 && second.Throws? ==> x.result == Caught(second.thrown)
    ensures x.sent != [] && FinalResponse(registered, first, second).Done?
            && !FinalResponse(registered, first, second).value.Ok() ==>
              x.result == ApiResult(false, None,
                Some(failure + Text.IntToString(FinalResponse(registered, first, second).value.status)))
    ensures x.sent != [] && FinalResponse(registered, first, second).Done?
            && FinalResponse(registered, first, second).value.Ok()
            && x.sent[|x.sent| - 1].publicKey.Some? && mark.Throws? ==>
              x.result == Caught(mark.thrown)
    ensures x.sent != [] && FinalResponse(registered, first, second).Done?
            && FinalResponse(registered, first, second).value.Ok()
            && (x.sent[|x.sent| - 1].publicKey.Some? ==> mark.Done?)
            && FinalResponse(registered, first, second).value.json.Throws? ==>
              x.result == Caught(FinalResponse(registered, first, second).value.json.thrown)
  {
    match signing
    case Throws(e) => Exchange([], false, Caught(e))
    case Done(signed) =>
      match registered
      case Throws(e) => Exchange([], false, Caught(e))
      case Done(isRegistered) =>
        var needsRegistration := !isRegistered;
        var body := Body(signed.payload, signed.signature,
                         if needsRegistration then Some(signed.publicKey) else None);
        match first
        case Throws(e) => Exchange([body], false, Caught(e))
        case Done(response) =>
          if AsksForKey(isRegistered, response) then
            var retry := body.(publicKey := Some(signed.publicKey));
            match second
            case Throws(e) => Exchange([body, retry], false, Caught(e))
            case Done(response2) => Conclude(failure, [body, retry], true, response2, mark)
          else
            Conclude(failure, [body], needsRegistration, response, mark)
  }

  /** From the final response on: a non-ok status fails with the status in
      the message; otherwise the key is marked registered if it was sent,
      and the JSON body becomes the data. */
  function Conclude<D>(failure: string, sent: seq<Body>, needsRegistration: bool,
                       response: Response<D>, mark: Attempt<()>): (x: Exchange<D>)
    ensures x.sent == sent
    ensures x.marked <==> response.Ok() && needsRegistration
    ensures !response.Ok() ==> x.result == ApiResult(false, None, Some(failure + Text.IntToString(response.status)))
    ensures x.result.success <==> response.Ok() && response.json.Done? && (needsRegistration ==> mark.Done?)
  {
    if !response.Ok() then
      Exchange(sent, false, ApiResult(false, None, Some(failure + Text.IntToString(response.status))))
    else if needsRegistration && mark.Throws? then
      Exchange(sent, true, Caught(mark.thrown))
    else
      match response.json
      case Throws(e) => Exchange(sent, needsRegistration, Caught(e))
      case Done(d) => Exchange(sent, needsRegistration, ApiResult(true, Some(d), None))
  }

  /** The JSON an install-tracking call answers with. */
  datatype InstallStats = InstallStats(count: Option<int>)

  /** `trackInstall`: checks the id, then the signed POST; the data is the
      body's `count`. */
  function TrackInstall(themeId: string, signing: Attempt<Signed>, registered: Attempt<bool>,
                        first: Attempt<Response<InstallStats>>, second: Attempt<Response<InstallStats>>,
                        mark: Attempt<()>): (x: Exchange<int>)
    ensures !IsValidThemeId(themeId) ==> x == Exchange([], false, ApiResult(false, None, Some(InvalidThemeId)))
    ensures IsValidThemeId(themeId) ==>
              var y := SignedPost("Failed to track install: ", signing, registered, first, second, mark);
              && x.sent == y.sent && x.marked == y.marked
              && x.result.success == y.result.success && x.result.error == y.result.error
              && (y.result.success ==> x.result.data == y.result.data.value.count)
    ensures !x.result.success ==> x.result.data.None?
  {
    if !IsValidThemeId(themeId) then Exchange([], false, ApiResult(false, None, Some(InvalidThemeId)))
    else
      var y := SignedPost("Failed to track install: ", signing, registered, first, second, mark);
      var data := if y.result.success then y.result.data.value.count else None;
      Exchange(y.sent, y.marked, ApiResult(y.result.success, data, y.result.error))
  }

  /** The JSON a rating call answers with, passed through as the data. */
  datatype RatingResult = RatingResult(average: string, count: int)

  /** `submitRating`: checks the id, then the rating, then the signed POST. */
  function SubmitRating(themeId: string, rating: real, signing: Attempt<Signed>, registered: Attempt<bool>,
                        first: Attempt<Response<RatingResult>>, second: Attempt<Response<RatingResult>>,
                        mark: Attempt<()>): (x: Exchange<RatingResult>)
    ensures !IsValidThemeId(themeId) ==> x == Exchange([], false, ApiResult(false, None, Some(InvalidThemeId)))
    ensures IsValidThemeId(themeId) && !IsValidRating(rating) ==>
              x == Exchange([], false, ApiResult(false, None, Some(InvalidRating)))
    ensures IsValidThemeId(themeId) && IsValidRating(rating) ==>
              x == SignedPost("Failed to submit rating: ", signing, registered, first, second, mark)
  {
    if !IsValidThemeId(themeId) then Exchange([], false, ApiResult(false, None, Some(InvalidThemeId)))
    else if !IsValidRating(rating) then Exchange([], false, ApiResult(false, None, Some(InvalidRating)))
    else SignedPost("Failed to submit rating: ", signing, registered, first, second, mark)
  }

  // ---------------------------------------------------------------------
  // Properties of the request flow.

  /** A key already registered that the server does not ask for again is
      never sent, and never marked. */
  lemma RegisteredKeyStaysHome<D>(signed: Signed, first: Response<D>, second: Attempt<Response<D>>,
                                  mark: Attempt<()>)
    requires !AsksForKey(true, first)
    ensures var x := SignedPost("", Done(signed), Done(true), Done(first), second, mark);
            |x.sent| == 1 && x.sent[0].publicKey.None? && !x.marked
  {
  }

  /** When the server asks for the key, the retry carries it, and a
      successful retry marks the key registered. */
  lemma RetryRegistersKey<D>(signed: Signed, first: Response<D>, second: Response<D>, d: D)
    requires AsksForKey(true, first) && second.Ok() && second.json == Done(d)
    ensures var x := SignedPost("", Done(signed), Done(true), Done(first), Done(second), Done(()));
            && |x.sent| == 2 && x.sent[1].publicKey == Some(signed.publicKey)
            && x.marked && x.result == ApiResult(true, Some(d), None)
  {
  }

  /** A 400 with any other error code is final: no retry, and the call
      fails with the status in the message. */
  lemma OtherBadRequestIsFinal<D>(signed: Signed, first: Response<D>, second: Attempt<Response<D>>,
                                  mark: Attempt<()>)
    requires first.status == 400 && first.errorCode != Some(PublicKeyRequired)
    ensures var x := SignedPost("Failed to track install: ", Done(signed), Done(true), Done(first), second, mark);
            && |x.sent| == 1 && !x.marked
            && x.result == ApiResult(false, None, Some("Failed to track install: 400"))
  {
    assert Text.NatToString(4) == "4";
    assert Text.NatToString(40) == "40";
    assert Text.IntToString(400) == "400";
    assert "Failed to track install: " + "400" == "Failed to track install: 400";
  }

  /** The id is checked before the rating: a call with both wrong reports
      the id. */
  lemma SubmitRatingChecksIdFirst(themeId: string, rating: real, signing: Attempt<Signed>,
                                     registered: Attempt<bool>, first: Attempt<Response<RatingResult>>,
                                     second: Attempt<Response<RatingResult>>, mark: Attempt<()>)
    requires !IsValidThemeId(themeId) && !IsValidRating(rating)
    ensures SubmitRating(themeId, rating, signing, registered, first, second, mark).result.error == Some(InvalidThemeId)
  {
  }

  /** Concrete ids: the empty id, every 129-character id and one with a
      space are refused; an id of pattern characters is accepted. */
  lemma ThemeIdExamples()
    ensures !IsValidThemeId("")
    ensures !IsValidThemeId("my theme")
    ensures IsValidThemeId("dark_mode-2")
    ensures forall id: string :: |id| == 129 ==> !IsValidThemeId(id)
  {
    assert !IsThemeIdChar(' ');
    assert !IsValidThemeId("my theme") by { assert "my theme"[2] == ' '; }
  }
}
