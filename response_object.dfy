/** The reply envelope `{ReplyCode, ReplyText, ReplyData}` and its decoding from a
    parsed JSON value into a typed payload. */
module ResponseObject {
  import opened Wrappers
  import opened JsonValue
  import opened ReplyCodes

  /** The range of a C# `int`, which Convert.ToInt32 returns. */
  type Int32 = x: int | -0x8000_0000 <= x < 0x8000_0000

  /** The library calls the decoder relies on. The two conversions give None where
      the library call throws; the type test gives None when the value is not of the
      payload type; ToString cannot fail. */
  datatype Conversions<T> = Conversions(
    toInt32: Value -> Option<Int32>,    // Convert.ToInt32; None where it throws
    toText: Value -> string,            // ToString() of a non-null value that is not a string
    isData: Value -> Option<T>,         // the test `replyData is TData` with its cast; None when not of that type
    changeType: Value -> Option<T>)     // Convert.ChangeType(replyData, typeof(TData)); None where it throws

  /** A decoded reply. `replyCode` may be any integer, named or not; a payload of
      None is the default value of the payload type. */
  datatype Envelope<T> = Envelope(replyCode: Int32, replyText: string, replyData: Option<T>)

  datatype DecodeError =
    | ArgumentNull                    // the parsed value is null
    | NullReference                   // the dereference of the failed cast's null result
    | NotAnObject(got: Value)         // "Expected object as response; got ... instead."
    | MissingReplyCode                // "ReplyCode property was not found in the response."
    | ReplyCodeNotConvertible(got: Value)
    | DataTypeMismatch(got: Value)    // "Expected response data type ...; got ... instead."

  /** The member `key` of a parsed object; None for an absent member or a non-object. */
  function Field(parsed: Value, key: string): Option<Value> {
    if parsed.Dictionary? then TryGetValue(parsed.entries, key) else None
  }

  /** An absent member, or one holding null. */
  predicate IsNullOrAbsent(v: Option<Value>) {
    v.None? || v.value.Null?
  }

  /** `(x ?? string.Empty).ToString()` for an optional member. */
  function TextOf<T>(v: Option<Value>, conv: Conversions<T>): string {
    match v
    case None => ""
    case Some(Null) => ""
    case Some(Str(s)) => s
    case Some(other) => conv.toText(other)
  }

  /** The payload step: an absent or null member leaves the default; a value of the
      payload type is bound as it is; otherwise the library conversion is tried, and
      its failure is an error only under DataRetrievalSuccess. */
  function DecodeReplyData<T>(code: Int32, data: Option<Value>, conv: Conversions<T>): (r: Result<Option<T>, DecodeError>)
    ensures r.Failure? <==> && !IsNullOrAbsent(data) && conv.isData(data.value).None?
                            && conv.changeType(data.value).None? && code == 200
    ensures r.Failure? ==> r.error == DataTypeMismatch(data.value)
    ensures r.Success? && IsNullOrAbsent(data) ==> r.value.None?
    ensures r.Success? && !IsNullOrAbsent(data) ==>
              r.value == (if conv.isData(data.value).Some? then conv.isData(data.value) else conv.changeType(data.value))
  {
    if IsNullOrAbsent(data) then Success(None)
    else
      var d := data.value;
      match conv.isData(d)
      case Some(x) => Success(Some(x))
      case None =>
        match conv.changeType(d)
        case Some(x) => Success(Some(x))
        case None => if code == Wire(DataRetrievalSuccess) then Failure(DataTypeMismatch(d)) else Success(None)
  }

  /** Decoding once the parsed value is known to be an object. */
  function DecodeMembers<T>(members: seq<Entry>, conv: Conversions<T>): Result<Envelope<T>, DecodeError> {
    match TryGetValue(members, "ReplyCode")
    case None => Failure(MissingReplyCode)
    case Some(rc) =>
      match conv.toInt32(rc)
      case None => Failure(ReplyCodeNotConvertible(rc))
      case Some(code) =>
        var text := TextOf(TryGetValue(members, "ReplyText"), conv);
        match DecodeReplyData(code, TryGetValue(members, "ReplyData"), conv)
        case Failure(e) => Failure(e)
        case Success(data) => Success(Envelope(code, text, data))
  }

  /** The constructor as written: a value that is not an object leads to a
      dereference of the null cast result while the error message is built. */
  function DecodeAsWritten<T>(parsed: Value, conv: Conversions<T>): (r: Result<Envelope<T>, DecodeError>)
    ensures parsed.Null? ==> r == Failure(ArgumentNull)
    ensures !parsed.Null? && !parsed.Dictionary? ==> r == Failure(NullReference)
  {
    match parsed
    case Null => Failure(ArgumentNull)
    case Dictionary(members) => DecodeMembers(members, conv)
    case _ => Failure(NullReference)
  }

  /** The constructor as intended: a value that is not an object is reported as such. */
  function Decode<T>(parsed: Value, conv: Conversions<T>): (r: Result<Envelope<T>, DecodeError>)
    ensures parsed.Null? ==> r == Failure(ArgumentNull)
    ensures !parsed.Null? && !parsed.Dictionary? ==> r == Failure(NotAnObject(parsed))
    ensures parsed.Dictionary? && Field(parsed, "ReplyCode").None? ==> r == Failure(MissingReplyCode)
    ensures r.Success? ==>
              && Field(parsed, "ReplyCode").Some?
              && conv.toInt32(Field(parsed, "ReplyCode").value) == Some(r.value.replyCode)
              && r.value.replyText == TextOf(Field(parsed, "ReplyText"), conv)
    ensures r.Success? && IsNullOrAbsent(Field(parsed, "ReplyData")) ==> r.value.replyData.None?
    ensures (r.Success? && !IsNullOrAbsent(Field(parsed, "ReplyData")) && conv.isData(Field(parsed, "ReplyData").value).Some?)
              ==> r.value.replyData == conv.isData(Field(parsed, "ReplyData").value)
    ensures (r.Failure? && r.error.DataTypeMismatch?)
              ==> (Field(parsed, "ReplyCode").Some? && conv.toInt32(Field(parsed, "ReplyCode").value) == Some(Wire(DataRetrievalSuccess)))
    ensures (parsed.Dictionary? && Field(parsed, "ReplyCode").Some? && conv.toInt32(Field(parsed, "ReplyCode").value).None?)
              ==> r == Failure(ReplyCodeNotConvertible(Field(parsed, "ReplyCode").value))
    ensures parsed.Dictionary? && Field(parsed, "ReplyCode").Some? && conv.toInt32(Field(parsed, "ReplyCode").value).Some? ==>
              var d := Field(parsed, "ReplyData");
              (r.Success? <==> !(&& !IsNullOrAbsent(d) && conv.isData(d.value).None? && conv.changeType(d.value).None?
                                 && conv.toInt32(Field(parsed, "ReplyCode").value).value == 200))
    ensures (parsed.Dictionary? && Field(parsed, "ReplyCode").Some? && conv.toInt32(Field(parsed, "ReplyCode").value).Some?
             && r.Failure?) ==> r.error == DataTypeMismatch(Field(parsed, "ReplyData").value)
    ensures (r.Success? && !IsNullOrAbsent(Field(parsed, "ReplyData")) && conv.isData(Field(parsed, "ReplyData").value).None?)
              ==> r.value.replyData == conv.changeType(Field(parsed, "ReplyData").value)
  {
    match parsed
    case Null => Failure(ArgumentNull)
    case Dictionary(members) => DecodeMembers(members, conv)
    case _ => Failure(NotAnObject(parsed))
  }

  /** The two definitions differ only in how a non-object is reported: a bare JSON
      array is rejected by a null dereference rather than by the intended message. */
  lemma NonObjectDereferencesNull<T>(conv: Conversions<T>)
    ensures DecodeAsWritten(Enumerable([]), conv) == Failure(NullReference)
    ensures Decode(Enumerable([]), conv) == Failure(NotAnObject(Enumerable([])))
    ensures forall v: Value :: !v.Dictionary? && !v.Null? ==> DecodeAsWritten(v, conv).Failure?
    ensures forall v: Value :: DecodeAsWritten(v, conv).Success? <==> Decode(v, conv).Success?
    ensures forall v: Value :: v.Dictionary? ==> DecodeAsWritten(v, conv) == Decode(v, conv)
  {
  }

  /** Any integer the code converts to is kept, whether or not it names a member. */
  lemma UnnamedCodeKept<T>(v: Value, code: Int32, conv: Conversions<T>)
    requires conv.toInt32(v) == Some(code)
    ensures Decode(Dictionary([Entry("ReplyCode", v)]), conv) == Success(Envelope(code, "", None))
  {
  }

  /** A payload that neither has the payload type nor converts to it is an error
      exactly when the code is DataRetrievalSuccess (200); under any other code,
      the other success codes 201-203 included, the payload stays at its default. */
  lemma MismatchFatalOnlyForRetrievalSuccess<T>(parsed: Value, conv: Conversions<T>, code: Int32)
    requires parsed.Dictionary?
    requires Field(parsed, "ReplyCode").Some? && conv.toInt32(Field(parsed, "ReplyCode").value) == Some(code)
    requires !IsNullOrAbsent(Field(parsed, "ReplyData"))
    requires conv.isData(Field(parsed, "ReplyData").value).None?
    requires conv.changeType(Field(parsed, "ReplyData").value).None?
    ensures Decode(parsed, conv).Failure? <==> code == 200
    ensures Decode(parsed, conv).Success? ==> Decode(parsed, conv).value.replyData.None?
  {
  }
}
