/** The status codes of the board service's reply envelope and their wire integers. */
module ReplyCodes {
  import opened Wrappers

  datatype ReplyCode =
    | NoData
    | DataRetrievalSuccess
    | DataInsertSuccess
    | DataUpdateSuccess
    | DataDeleteSuccess
    | SystemException
    | MinorException
    | UserException
    | FatalException
    | ThrottleWaitResponse
    | WipOverrideCommentRequired
    | ResendingEmailRequired
    | UnauthorizedAccess

  /** The integer each member stands for on the wire. */
  function Wire(c: ReplyCode): int {
    match c
    case NoData => 100
    case DataRetrievalSuccess => 200
    case DataInsertSuccess => 201
    case DataUpdateSuccess => 202
    case DataDeleteSuccess => 203
    case SystemException => 500
    case MinorException => 501
    case UserException => 502
    case FatalException => 503
    case ThrottleWaitResponse => 800
    case WipOverrideCommentRequired => 900
    case ResendingEmailRequired => 902
    case UnauthorizedAccess => 1000
  }

  /** The member's name, which is what the enum's ToString() gives for a named value. */
  function Name(c: ReplyCode): string {
    match c
    case NoData => "NoData"
    case DataRetrievalSuccess => "DataRetrievalSuccess"
    case DataInsertSuccess => "DataInsertSuccess"
    case DataUpdateSuccess => "DataUpdateSuccess"
    case DataDeleteSuccess => "DataDeleteSuccess"
    case SystemException => "SystemException"
    case MinorException => "MinorException"
    case UserException => "UserException"
    case FatalException => "FatalException"
    case ThrottleWaitResponse => "ThrottleWaitResponse"
    case WipOverrideCommentRequired => "WipOverrideCommentRequired"
    case ResendingEmailRequired => "ResendingEmailRequired"
    case UnauthorizedAccess => "UnauthorizedAccess"
  }

  /** The members in declaration order. */
  const AllCodes: seq<ReplyCode> := [
    NoData, DataRetrievalSuccess, DataInsertSuccess, DataUpdateSuccess, DataDeleteSuccess,
    SystemException, MinorException, UserException, FatalException, ThrottleWaitResponse,
    WipOverrideCommentRequired, ResendingEmailRequired, UnauthorizedAccess]

  /** The declaration lists every member once, with the wire integers
      100, 200-203, 500-503, 800, 900, 902 and 1000, all different. */
  lemma Declaration()
    ensures forall c: ReplyCode :: c in AllCodes
    ensures |AllCodes| == 13
    ensures seq(|AllCodes|, i requires 0 <= i < |AllCodes| => Wire(AllCodes[i]))
         == [100, 200, 201, 202, 203, 500, 501, 502, 503, 800, 900, 902, 1000]
    ensures forall i, j :: 0 <= i < j < |AllCodes| ==> Wire(AllCodes[i]) != Wire(AllCodes[j])
  {
    forall c: ReplyCode
      ensures c in AllCodes
    {
      match c
        case NoData => assert AllCodes[0] == c;
        case DataRetrievalSuccess => assert AllCodes[1] == c;
        case DataInsertSuccess => assert AllCodes[2] == c;
        case DataUpdateSuccess => assert AllCodes[3] == c;
        case DataDeleteSuccess => assert AllCodes[4] == c;
        case SystemException => assert AllCodes[5] == c;
        case MinorException => assert AllCodes[6] == c;
        case UserException => assert AllCodes[7] == c;
        case FatalException => assert AllCodes[8] == c;
        case ThrottleWaitResponse => assert AllCodes[9] == c;
        case WipOverrideCommentRequired => assert AllCodes[10] == c;
        case ResendingEmailRequired => assert AllCodes[11] == c;
        case UnauthorizedAccess => assert AllCodes[12] == c;
    }
  }

  /** Different members have different wire integers. */
  lemma WireInjective(a: ReplyCode, b: ReplyCode)
    ensures Wire(a) == Wire(b) ==> a == b
  {
  }

  /** The first of `codes` whose wire integer is `i`. */
  function FindWire(codes: seq<ReplyCode>, i: int): (r: Option<ReplyCode>)
    ensures r.Some? ==> r.value in codes && Wire(r.value) == i
    ensures r.None? ==> forall c :: c in codes ==> Wire(c) != i
  {
    if codes == [] then None
    else if Wire(codes[0]) == i then Some(codes[0])
    else FindWire(codes[1..], i)
  }

  /** The named member an integer stands for, if any: the inverse of `Wire`. */
  function FromWire(i: int): (r: Option<ReplyCode>)
    ensures r.Some? ==> Wire(r.value) == i
    ensures r.None? ==> forall c: ReplyCode :: Wire(c) != i
  {
    Declaration();
    FindWire(AllCodes, i)
  }

  lemma FromWireRoundTrip(c: ReplyCode)
    ensures FromWire(Wire(c)) == Some(c)
  {
    WireInjective(c, FromWire(Wire(c)).value);
  }

  /** The members that report a successful request. */
  predicate IsSuccess(c: ReplyCode) {
    c == DataRetrievalSuccess || c == DataInsertSuccess || c == DataUpdateSuccess || c == DataDeleteSuccess
  }

  /** The success members are exactly those whose wire integer lies in 200-203;
      every other member lies outside that range. */
  lemma SuccessIsRange(c: ReplyCode)
    ensures IsSuccess(c) <==> 200 <= Wire(c) <= 203
  {
  }

  /** An integer stands for a success member exactly when it lies in 200-203. */
  lemma FromWireSuccess(i: int)
    ensures (FromWire(i).Some? && IsSuccess(FromWire(i).value)) <==> 200 <= i <= 203
  {
    if 200 <= i <= 203 {
      var c := if i == 200 then DataRetrievalSuccess else if i == 201 then DataInsertSuccess
               else if i == 202 then DataUpdateSuccess else DataDeleteSuccess;
      FromWireRoundTrip(c);
    } else if FromWire(i).Some? {
      SuccessIsRange(FromWire(i).value);
    }
  }

  /** Decimal text of an integer, as Int32.ToString() writes it. */
  function DecimalText(i: int): (r: string)
    ensures |r| > 0
    ensures forall k :: 0 <= k < |r| ==> '0' <= r[k] <= '9' || (k == 0 && r[k] == '-' && i < 0)
    decreases if i < 0 then 1 - i else i
  {
    if i < 0 then "-" + DecimalText(-i)
    else if i < 10 then [DigitChar(i)]
    else DecimalText(i / 10) + [DigitChar(i % 10)]
  }

  function DigitChar(d: int): (c: char)
    requires 0 <= d < 10
    ensures '0' <= c <= '9'
    ensures c as int - '0' as int == d
  {
    "0123456789"[d]
  }

  /** Reference reading of decimal text: the value of a run of digits. */
  function DigitsValue(t: string): int {
    if t == [] then 0 else DigitsValue(t[..|t| - 1]) * 10 + (t[|t| - 1] as int - '0' as int)
  }

  /** Reference reading of decimal text with an optional leading minus sign. */
  function DecimalValue(t: string): int {
    if |t| > 0 && t[0] == '-' then -DigitsValue(t[1..]) else DigitsValue(t)
  }

  /** The text of a non-negative integer reads back as that integer and starts with
      `0` only when it is `0` itself. */
  lemma {:induction false} DigitsTextValue(n: nat)
    ensures DigitsValue(DecimalText(n)) == n
    ensures DecimalText(n)[0] == '0' <==> n == 0
    ensures n == 0 ==> DecimalText(n) == "0"
    decreases n
  {
    if n >= 10 {
      var t := DecimalText(n);
      DigitsTextValue(n / 10);
      assert t == DecimalText(n / 10) + [DigitChar(n % 10)];
      assert t[..|t| - 1] == DecimalText(n / 10);
    } else {
      assert DecimalText(n) == [DigitChar(n)];
      assert DecimalText(n)[..0] == [];
    }
  }

  /** Decimal text is exact: it reads back as the integer it was made from, and it
      has no leading zero (a minus sign comes first for a negative integer). */
  lemma {:induction false} DecimalTextValue(i: int)
    ensures DecimalValue(DecimalText(i)) == i
    ensures i >= 0 ==> (DecimalText(i)[0] == '0' <==> i == 0)
    ensures i < 0 ==> |DecimalText(i)| >= 2 && DecimalText(i)[0] == '-' && DecimalText(i)[1] != '0'
  {
    if i < 0 {
      var t := DecimalText(-i);
      DigitsTextValue(-i);
      assert DecimalText(i) == "-" + t;
      assert ("-" + t)[1..] == t;
      assert DecimalValue("-" + t) == -DigitsValue(t);
    } else {
      DigitsTextValue(i);
    }
  }

  /** What the enum's ToString() returns for a reply code: the member name for a
      named value, the decimal text of the integer otherwise. */
  function CodeText(code: int): (r: string)
    ensures FromWire(code).Some? ==> r == Name(FromWire(code).value)
    ensures FromWire(code).None? ==> r == DecimalText(code) && DecimalValue(r) == code
  {
    DecimalTextValue(code);
    match FromWire(code)
    case Some(c) => Name(c)
    case None => DecimalText(code)
  }
}
