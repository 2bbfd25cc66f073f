/** The error helper: the message shown for a backend or application error,
    chosen by an ordered chain of code checks and then message checks, and
    the defaults of the application error record. The Arabic texts of the
    fixed messages are represented by the `Message` constructors. */
module ErrorHandler {
  import opened Common
  import Text

  /** The fields of a thrown error the helper reads; either may be missing. */
  datatype ErrorInfo = ErrorInfo(message: Option<string>, code: Option<string>)

  /** The message shown: one of the fixed texts, or the error's own message. */
  datatype Message =
    | NotFound          // code PGRST116
    | AlreadyExists     // code 23505
    | StillReferenced   // code 23503
    | NotPermitted      // code 42501
    | NetworkFailure    // message mentions `fetch`
    | BadCredentials    // message mentions `Invalid login credentials`
    | EmailUnconfirmed  // message mentions `Email not confirmed`
    | Own(text: string) // the error's non-empty message
    | Unexpected        // the generic fallback

  const NetworkMarker := "fetch"
  const CredentialsMarker := "Invalid login credentials"
  const UnconfirmedMarker := "Email not confirmed"

  /** The four backend codes with a fixed message, in the order checked. */
  function CodeMessage(code: string): (m: Option<Message>)
    ensures m.Some? <==> code in {"PGRST116", "23505", "23503", "42501"}
  {
    if code == "PGRST116" then Some(NotFound)
    else if code == "23505" then Some(AlreadyExists)
    else if code == "23503" then Some(StillReferenced)
    else if code == "42501" then Some(NotPermitted)
    else None
  }

  predicate HasKnownCode(e: ErrorInfo) {
    e.code.Some? && CodeMessage(e.code.value).Some?
  }

  predicate Mentions(e: ErrorInfo, marker: string) {
    e.message.Some? && Text.Contains(e.message.value, marker)
  }

  /** `handleError`: a known code decides first; then the network marker, then
      the two sign-in markers, in that order; otherwise the error's own message
      when non-empty, else the generic text. The result is never an empty text. */
  function HandleError(e: ErrorInfo): (m: Message)
    ensures HasKnownCode(e) ==> m == CodeMessage(e.code.value).value
    ensures !HasKnownCode(e) && Mentions(e, NetworkMarker) ==> m == NetworkFailure
    ensures !HasKnownCode(e) && !Mentions(e, NetworkMarker) && Mentions(e, CredentialsMarker) ==> m == BadCredentials
    ensures m == EmailUnconfirmed <==>
      !HasKnownCode(e) && !Mentions(e, NetworkMarker) && !Mentions(e, CredentialsMarker) && Mentions(e, UnconfirmedMarker)
    ensures m.Own? <==>
      !HasKnownCode(e) && !Mentions(e, NetworkMarker) && !Mentions(e, CredentialsMarker) && !Mentions(e, UnconfirmedMarker)
      && e.message.Some? && e.message.value != ""
    ensures m.Own? ==> m.text == e.message.value && m.text != ""
    ensures m == Unexpected <==> !HasKnownCode(e) && (e.message.None? || e.message.value == "")
  {
    if HasKnownCode(e) then CodeMessage(e.code.value).value
    else if Mentions(e, NetworkMarker) then NetworkFailure
    else if Mentions(e, CredentialsMarker) then BadCredentials
    else if Mentions(e, UnconfirmedMarker) then EmailUnconfirmed
    else if e.message.Some? && e.message.value != "" then Own(e.message.value)
    else
      EmptyMentionsNothing(e);
      Unexpected
  }

  /** An empty or missing message mentions none of the markers. */
  lemma EmptyMentionsNothing(e: ErrorInfo)
    requires e.message.None? || e.message.value == ""
    ensures !Mentions(e, NetworkMarker) && !Mentions(e, CredentialsMarker) && !Mentions(e, UnconfirmedMarker)
  {
    if e.message.Some? {
      NothingInEmpty(NetworkMarker);
      NothingInEmpty(CredentialsMarker);
      NothingInEmpty(UnconfirmedMarker);
    }
  }

  lemma NothingInEmpty(marker: string)
    requires marker != ""
    ensures !Text.Contains("", marker)
  {
  }

  /** Code checks win over message checks: with a known code the message,
      whatever it says, is never consulted. */
  lemma CodeBeforeMessage(code: string, message1: Option<string>, message2: Option<string>)
    requires CodeMessage(code).Some?
    ensures HandleError(ErrorInfo(message1, Some(code))) == HandleError(ErrorInfo(message2, Some(code)))
  {
  }

  /** An application error created without a code carries `UNKNOWN_ERROR`,
      which has no fixed message, so the helper shows what its message
      says, exactly as for an error without a code. */
  lemma DefaultCodeDefersToMessage(message: string, statusCode: Option<int>, isOperational: Option<bool>)
    ensures var a := NewAppError(message, None, statusCode, isOperational);
      HandleError(ErrorInfo(Some(a.message), Some(a.code))) == HandleError(ErrorInfo(Some(message), None))
  {
  }

  /** The application error record. */
  datatype AppError = AppError(message: string, code: string, statusCode: int, isOperational: bool, name: string)

  /** `new AppError(message, code?, statusCode?, isOperational?)`: a missing
      argument takes its default. */
  function NewAppError(message: string, code: Option<string>, statusCode: Option<int>, isOperational: Option<bool>): (a: AppError)
    ensures a.message == message && a.name == "AppError"
    ensures a.code == (if code.Some? then code.value else "UNKNOWN_ERROR")
    ensures a.statusCode == (if statusCode.Some? then statusCode.value else 500)
    ensures a.isOperational == (isOperational.None? || isOperational.value)
  {
    AppError(
      message,
      if code.Some? then code.value else "UNKNOWN_ERROR",
      if statusCode.Some? then statusCode.value else 500,
      if isOperational.Some? then isOperational.value else true,
      "AppError")
  }
}
