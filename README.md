# LeanKit Kanban provider for BuildMaster: a Dafny model of its core

The extension connects BuildMaster to a LeanKit Kanban board. Its core has three parts:

- a small JSON writer (`JsonWriter`), which turns the values the provider posts back into JSON text;
- the decoder of the server's reply envelope `{ReplyCode, ReplyText, ReplyData}` (the `ResponseObject<TData>` constructor), together with the `ReplyCode` enum;
- the board and card rules of `KanbanIssueTrackingProvider`.

The model covers that core:

- which cards are reported as issues of a release;
- which lane counts as closed;
- how a card's description is cleaned of HTML tags;
- how a description is appended to;
- how a card is moved to a lane, or to the last lane;
- the reply-code check that every server reply goes through.

Files:

- `wrappers.dfy`: the `Option`, `Result` and `Outcome` types.
- `json_value.dfy`: the value tree.
  - On the writing side it classifies a run-time object into the first dispatch rule that applies to it.
  - On the reading side it stands for what the JSON reader returns. `Dictionary` is the reader's JavaScriptObject and `Enumerable` its JavaScriptArray.
  - It also holds `TryGetValue`.
- `json_writer.dfy`: the writer.
  - The escaping rule `JsonEncode`, first as the source's passes, then proved equal to a character-by-character reference (`EscapeAll`).
  - The text each value is written as (`Encode`).
  - A `TextBuffer` class standing for the TextWriter.
  - The writer methods, which append to the buffer in `for` loops with the source's `first` flag.
- `reply_code.dfy`: the thirteen reply codes, their wire integers, and the inverse mapping.
- `response_object.dfy`: decoding a parsed reply into an `Envelope`. It has both the code as written and the corrected definition; see Findings.
- `kanban_provider.dfy`: the provider's rules.
  - Cards are a `Card` class whose `Description` and `LaneId` the provider updates in place.
  - Lanes are values. `GetIssues` is a method with the source's nested loops, proved equal to `BoardIssues`.

The library calls the core depends on are function-typed parameters ("oracles"):

- `Convert.ToInt32`, `Convert.ChangeType` and `HttpUtility.HtmlDecode` return `None` where the library call throws;
- the `is TData` test returns the value cast to the payload type, or `None` when the value is not of that type (the test itself never throws);
- `ToString` returns the text of a value and cannot fail.

## Model

| member | source | states |
|---|---|---|
| JsonValue.TryGetValue | Kanban/ResponseObject.cs:16-17 | Finds the value stored under a key. The result is None exactly when no entry has that key; otherwise some entry pairs the key with the returned value. |
| JsonWriter.JsonEncode | JsonWriter.cs:110-119 | Empty text is returned unchanged. In all cases the result of the source's passes equals the character-by-character reference `EscapeAll`. The passes are the regular-expression pass, then the tab, CR and LF replacements. |
| JsonWriter.EscapeQuotes | JsonWriter.cs:115 | The regular-expression pass: a backslash before every `"`, `'` and `\`. Characterised through `PassesAreCharMap`. |
| JsonWriter.ReplaceChar | JsonWriter.cs:116-118 | String.Replace with a one-character old value. Characterised by `ReplaceCharOne` and `ReplaceCharConcat`. |
| JsonWriter.ReplaceControls | JsonWriter.cs:116-118 | The tab, CR, LF Replace chain in the source's order. Characterised by `ReplaceControlsOne` and `ReplaceControlsConcat`. |
| JsonWriter.PassesAreCharMap | JsonWriter.cs:115-118 | Running the quote/backslash pass and then the three control-character replacements is exactly the per-character escaping map. |
| JsonWriter.ReplaceControlsOne | JsonWriter.cs:116-118 | The three Replace calls change a single character only if it is a tab, CR or LF, and then into `\t`, `\r` or `\n`. |
| JsonWriter.ReplaceCharConcat | JsonWriter.cs:116-118 | Replacing a one-character value distributes over concatenation. |
| JsonWriter.ReplaceControlsConcat | JsonWriter.cs:116-118 | The chain of three replacements distributes over concatenation. |
| JsonWriter.ReplaceCharOne | JsonWriter.cs:116-118 | Replace on a one-character string gives the replacement exactly when the character is the old value. |
| JsonWriter.EscapeAllConcat | JsonWriter.cs:115-118 | The escaping of a concatenation is the concatenation of the escapings. |
| JsonWriter.JsonEncodeCharImage | JsonWriter.cs:115-118 | Every input character is replaced in place by its fixed image, and its neighbours are encoded independently. The images are: `"`, `'` and `\` get one added backslash; tab, CR and LF become `\t`, `\r` and `\n`; every other character is copied. |
| JsonWriter.JsonEncodeLength | JsonWriter.cs:115-118 | The output length is the input length plus one per quote, backslash, tab, CR or LF. |
| JsonWriter.JsonEncodeNoTabOrNewline | JsonWriter.cs:115-118 | No raw tab, CR or LF is left in the output. |
| JsonWriter.JsonEncodeRoundTrip | JsonWriter.cs:115-118 | The escaping is lossless: unescaping the output gives back the input. |
| JsonWriter.JsonEncodePlainText | JsonWriter.cs:112-118 | Text without quotes, backslashes, tabs or line breaks is returned unchanged. |
| JsonWriter.EscapeAllPlain | JsonWriter.cs:115-118 | The reference escaping leaves text alone when no character needs escaping. |
| JsonWriter.JoinSnoc | JsonWriter.cs:65-73 | Adding one part to a comma-joined list adds a comma only when the list was not empty. |
| JsonWriter.EncodeItemsIsJoin | JsonWriter.cs:61-77 | The body of an array is its items' texts joined by commas, in iteration order. |
| JsonWriter.EncodeArrayIsJoin | JsonWriter.cs:61-77 | An enumerable is written as `[`, then the items joined by single commas, then `]`. An empty one gives `[]`, and there is never a trailing comma. |
| JsonWriter.Encode | JsonWriter.cs:23-93 | The text each value is written as, by the first dispatch rule that applies. Characterised by `EncodeArrayIsJoin`, `EncodeMembersIsJoin`, `EncodeStringRoundTrip`, `EncodeNoTabOrNewline`, and realised by `WriteJson`. |
| JsonWriter.EncodeItems | JsonWriter.cs:63-76 | An array body; proved equal to the comma join by `EncodeItemsIsJoin`. |
| JsonWriter.EncodeMembers | JsonWriter.cs:142-183 | An object body; proved equal to the comma join by `EncodeMembersIsJoin`. |
| JsonWriter.MemberText | JsonWriter.cs:149-152 | One member: the name in quotes verbatim, a colon, the value's text. |
| JsonWriter.EncodeMembersIsJoin | JsonWriter.cs:142-183 | A dictionary or property object is written as `"key":value` members joined by commas, in iteration order, with keys copied verbatim. |
| JsonWriter.EncodeStringRoundTrip | JsonWriter.cs:41-46 | A string is written inside double quotes, and the text between the quotes unescapes to the string. |
| JsonWriter.NoTabOrNewlineConcat | JsonWriter.cs:115-118 | Joining two texts without raw tabs or line breaks gives a text without them. |
| JsonWriter.EncodeNoTabOrNewline | JsonWriter.cs:23-93 | When the parts written verbatim contain no raw tab or line break, neither does the whole JSON text. Those parts are keys, number, literal and date texts. |
| JsonWriter.ItemsNoTabOrNewline | JsonWriter.cs:61-77 | The same for the body of an array. |
| JsonWriter.MembersNoTabOrNewline | JsonWriter.cs:142-183 | The same for the members of an object. |
| JsonWriter.TextBuffer.constructor | JsonWriter.cs:101 | A new buffer is empty. |
| JsonWriter.TextBuffer.Write | JsonWriter.cs:27 | Writing appends the text to the buffer and changes nothing else. |
| JsonWriter.Literal | JsonWriter.cs:125-128 | Gives a raw-literal value (whose constructor stores null as empty text) that is written as its text verbatim; a null literal is written as nothing. |
| JsonWriter.WriteJson | JsonWriter.cs:23-93 | Appends exactly `Encode(v)`. That is: null and DBNull give `null`; a bool gives `true`/`false`; a number gives its text; a string gives `"` + JsonEncode + `"`; a literal gives its text; a date gives its quoted round-trip text; then dictionary, enumerable or property object, in the source's dispatch order; an object without properties gives its quoted, escaped ToString text. |
| JsonWriter.WriteJsonArray | JsonWriter.cs:61-77 | The loop appends `[`, the items with a comma before each one but the first, then `]`. |
| JsonWriter.WriteQuoted | JsonWriter.cs:43-45 | Appends the text between double quotes and changes nothing else. |
| JsonWriter.WriteMember | JsonWriter.cs:149-152 | Appends `"name":` and then the member's value, i.e. exactly `MemberText`. |
| JsonWriter.WriteJsonObject | JsonWriter.cs:131-157 | The loop appends `{`, `"name":value` per property in order with commas between them, then `}`. |
| JsonWriter.WriteJsonDictionary | JsonWriter.cs:158-184 | The loop appends `{`, `"key":value` per entry in iteration order with commas between them, then `}`. |
| JsonWriter.ToJson | JsonWriter.cs:99-104 | Returns exactly what WriteJson appends to an empty buffer. |
| ReplyCodes.Declaration | Kanban/ReplyCode.cs:5-17 | The thirteen members have the wire integers 100, 200-203, 500-503, 800, 900, 902 and 1000, in declaration order, all different, and no other member exists. |
| ReplyCodes.WireInjective | Kanban/ReplyCode.cs:5-17 | Different members have different wire integers. |
| ReplyCodes.FindWire | Kanban/ReplyCode.cs:5-17 | A search over a list of members returns one whose integer is `i`, or None when none has it. |
| ReplyCodes.FromWire | Kanban/ReplyCode.cs:5-17 | An integer maps to the member carrying it, or to None when no member carries it. This makes the enum cast a partial inverse. |
| ReplyCodes.FromWireRoundTrip | Kanban/ReplyCode.cs:5-17 | Mapping a member's integer back gives the member. |
| ReplyCodes.SuccessIsRange | Kanban/ReplyCode.cs:5-17 | A member is one of the four success members exactly when its integer lies in 200-203. So NoData, the exception codes, ThrottleWaitResponse, WipOverrideCommentRequired, ResendingEmailRequired and UnauthorizedAccess all lie outside that range. |
| ReplyCodes.FromWireSuccess | Kanban/ReplyCode.cs:6-9 | An integer maps to one of the four success members exactly when it lies in 200-203. |
| ReplyCodes.DecimalText | Kanban/KanbanIssueTrackingProvider.cs:293 | The text of an unnamed reply code is non-empty and consists of decimal digits, with a leading minus only for a negative code. |
| ReplyCodes.DigitsTextValue | Kanban/KanbanIssueTrackingProvider.cs:293 | The text of a non-negative code reads back as that code, and starts with `0` only when it is `0` itself. |
| ReplyCodes.DecimalTextValue | Kanban/KanbanIssueTrackingProvider.cs:293 | The text of any code reads back, under the independent reference reading `DecimalValue`, as exactly that code; it has no leading zero, and a negative code starts with `-` followed by a non-zero digit. |
| ReplyCodes.CodeText | Kanban/KanbanIssueTrackingProvider.cs:293 | What the enum prints for a code: a named code prints its member name; an unnamed one prints its canonical decimal text, which reads back as the code (and, by `DecimalTextValue`, has no leading zero). |
| ReplyCodes.DigitChar | Kanban/KanbanIssueTrackingProvider.cs:293 | A digit value `d` maps to the decimal digit character for `d`. |
| ResponseObject.TextOf | Kanban/ResponseObject.cs:22-24 | The reply text: empty for an absent or null member, the string itself for a string, and its ToString text otherwise. Its use is stated by `Decode` and `UnnamedCodeKept`. |
| ResponseObject.DecodeReplyData | Kanban/ResponseObject.cs:26-43 | The payload step fails exactly when the payload is present and non-null, is not of the payload type, does not convert, and the code is 200; the failure is DataTypeMismatch. An absent or null payload gives the default; otherwise a value of the payload type is bound as it is, else the ChangeType result is bound. |
| ResponseObject.DecodeMembers | Kanban/ResponseObject.cs:16-43 | Decoding of an object's members: the ReplyCode lookup and conversion, the text, then the payload step. Its properties are stated through `Decode`. |
| ResponseObject.DecodeAsWritten | Kanban/ResponseObject.cs:7-44 | The constructor as written: null fails with ArgumentNull, and any other non-object fails with a null dereference. |
| ResponseObject.Decode | Kanban/ResponseObject.cs:7-44 | The corrected decoder. Null fails with ArgumentNull; a non-object fails with NotAnObject; an object without ReplyCode fails with MissingReplyCode; a ReplyCode that does not convert to an integer fails with ReplyCodeNotConvertible. When the code converts, decoding succeeds exactly unless the payload is present, non-null, neither of the payload type nor convertible, and the code is 200; that failure is DataTypeMismatch carrying the payload. On success the code is the integer conversion of the member and the text is the ReplyText member's text. An absent or null payload is left at its default; a payload of the payload type is bound unchanged; otherwise the ChangeType result is bound. |
| ResponseObject.NonObjectDereferencesNull | Kanban/ResponseObject.cs:12-14 | For the code as written, a bare JSON array fails with a null dereference instead of the intended NotAnObject error. Every non-object fails either way, the two decoders succeed on the same inputs, and on an object they give the same result. |
| ResponseObject.UnnamedCodeKept | Kanban/ResponseObject.cs:20-24 | Any integer the ReplyCode member converts to is kept, whether or not it names a member. A missing ReplyText gives empty text. |
| ResponseObject.MismatchFatalOnlyForRetrievalSuccess | Kanban/ResponseObject.cs:26-43 | A payload that neither has the payload type nor converts to it makes decoding fail exactly when the code is 200. Under any other code it leaves the payload at its default. |
| KanbanProvider.ReplaceAll | Kanban/KanbanIssueTrackingProvider.cs:102 | String.Replace with a non-empty old value. Characterised by `ReplaceAllAt` (the first occurrence is replaced and the rest is processed on its own) and `ReplaceAllNoOccurrence` (no occurrence, no change). |
| KanbanProvider.ReplaceAllAt | Kanban/KanbanIssueTrackingProvider.cs:102 | Text before the first occurrence of the pattern is kept, that occurrence becomes the replacement, and the text after it is replaced in turn; the inserted text is not scanned again. With `ReplaceAllNoOccurrence` this pins every occurrence, left to right and without overlap. |
| KanbanProvider.ReleaseTag | Kanban/KanbanIssueTrackingProvider.cs:102 | The release tag: the tag format with every `%RELNO%` replaced by the release number, as `ReplaceAllAt` and `ReplaceAllNoOccurrence` state of `ReplaceAll`. |
| KanbanProvider.ReplaceAllNoOccurrence | Kanban/KanbanIssueTrackingProvider.cs:102 | A release-tag format without `%RELNO%` is used unchanged. |
| KanbanProvider.DefaultReleaseTag | Kanban/KanbanIssueTrackingProvider.cs:102 | With the default format set by the provider's constructor, `rel-%RELNO%`, the release tag is `rel-` followed by the release number. |
| KanbanProvider.SplitPieces | Kanban/KanbanIssueTrackingProvider.cs:116 | Splitting on the separators always yields at least one piece. |
| KanbanProvider.PiecesHaveNoSeparator | Kanban/KanbanIssueTrackingProvider.cs:116 | No piece of the split contains a space, tab, LF or CR. |
| KanbanProvider.RemoveEmptySubset | Kanban/KanbanIssueTrackingProvider.cs:116 | Dropping empty entries keeps only non-empty pieces of the split. |
| KanbanProvider.TagsAreWords | Kanban/KanbanIssueTrackingProvider.cs:116 | Every tag of a card is non-empty and free of spaces, tabs and line breaks. |
| KanbanProvider.SplitPiecesWordPrefix | Kanban/KanbanIssueTrackingProvider.cs:116 | Text without separators in front of a string joins onto the first piece of that string's split. |
| KanbanProvider.SplitPiecesAfterSeparator | Kanban/KanbanIssueTrackingProvider.cs:116 | A separator at the start of the text gives an empty first piece, and the rest is split on its own. |
| KanbanProvider.SplitPiecesOfJoin | Kanban/KanbanIssueTrackingProvider.cs:116 | Splitting non-empty words written with single spaces gives back the words. |
| KanbanProvider.RemoveEmptyOfWords | Kanban/KanbanIssueTrackingProvider.cs:116 | Dropping empty entries from non-empty words changes nothing. |
| KanbanProvider.TagsOfJoin | Kanban/KanbanIssueTrackingProvider.cs:116 | Splitting tags written with single spaces gives back exactly those tags, in order. |
| KanbanProvider.RemoveEmpty | Kanban/KanbanIssueTrackingProvider.cs:116 | StringSplitOptions.RemoveEmptyEntries; characterised by `RemoveEmptySubset` and `RemoveEmptyOfWords`. |
| KanbanProvider.Tags | Kanban/KanbanIssueTrackingProvider.cs:116 | The tags of a card: the Tags text split on space, tab, LF and CR with empty tokens dropped; characterised by the lemmas around it. |
| KanbanProvider.TagsSkipSeparator | Kanban/KanbanIssueTrackingProvider.cs:116 | A separator (space, tab, LF or CR) in front of the text adds no tag, so leading separators and runs of separators are skipped. |
| KanbanProvider.TagsWordThenSeparator | Kanban/KanbanIssueTrackingProvider.cs:116 | A word followed by any separator is the first tag, and the rest of the text gives the remaining tags. |
| KanbanProvider.TagsOfWord | Kanban/KanbanIssueTrackingProvider.cs:116 | A lone word is the only tag. |
| KanbanProvider.EqualsIgnoreCase | Kanban/KanbanIssueTrackingProvider.cs:118 | Ordinal comparison ignoring case: same length and the same characters after upper-casing ASCII letters. |
| KanbanProvider.ContainsIgnoreCase | Kanban/KanbanIssueTrackingProvider.cs:118 | True exactly when some tag equals the release tag under ordinal case-insensitive comparison. |
| KanbanProvider.IsReported | Kanban/KanbanIssueTrackingProvider.cs:114-118 | A card is reported when one of its tags equals the release tag ignoring case; a missing or null Tags member counts as no tags. |
| KanbanProvider.UnmatchableReleaseTag | Kanban/KanbanIssueTrackingProvider.cs:116-118 | An empty release tag, or one containing a space, tab or line break, matches no card. |
| KanbanProvider.IndexOf | Kanban/KanbanIssueTrackingProvider.cs:26 | Finds the first occurrence of a character, or reports that there is none. |
| KanbanProvider.SubsequenceOfSuffix | Kanban/KanbanIssueTrackingProvider.cs:125 | A subsequence of a suffix is a subsequence of the whole text. |
| KanbanProvider.StripTagsSubsequence | Kanban/KanbanIssueTrackingProvider.cs:125 | Removing tags only removes characters: the rest is kept in order. |
| KanbanProvider.StripTagsChars | Kanban/KanbanIssueTrackingProvider.cs:125 | Every character of the stripped text occurs in the input. |
| KanbanProvider.StripTagsLeavesNoTag | Kanban/KanbanIssueTrackingProvider.cs:125 | No `<` ... `>` span is left: no `>` follows a `<` in the stripped text. |
| KanbanProvider.StripTagsPlainText | Kanban/KanbanIssueTrackingProvider.cs:125 | Text without `<` is kept unchanged. |
| KanbanProvider.IndexOfClose | Kanban/KanbanIssueTrackingProvider.cs:26 | The first `>` after a `>`-free text is at the end of that text. |
| KanbanProvider.StripTagsLeadingSpan | Kanban/KanbanIssueTrackingProvider.cs:125 | A span at the very start, from `<` to the first `>`, is removed. |
| KanbanProvider.StripTagsRemovesSpan | Kanban/KanbanIssueTrackingProvider.cs:125 | A span from a `<` to the next `>` is removed, and the text before it (which has no `<`) is kept. |
| KanbanProvider.StripTags | Kanban/KanbanIssueTrackingProvider.cs:125 | The HtmlRemoverRegex replacement: each `<` with a later `>` is removed up to the first such `>`. Characterised by the StripTags lemmas. |
| KanbanProvider.StripTagsPlainPrefix | Kanban/KanbanIssueTrackingProvider.cs:125 | Text before the first `<` is kept as it is, whatever follows. |
| KanbanProvider.StripTagsNoClose | Kanban/KanbanIssueTrackingProvider.cs:125 | Text without `>` is kept unchanged, `<` included. |
| KanbanProvider.StripTagsKeepsUnclosed | Kanban/KanbanIssueTrackingProvider.cs:125 | A `<` that has no `>` after it is kept, together with everything after it. |
| KanbanProvider.DescriptionText | Kanban/KanbanIssueTrackingProvider.cs:122-132 | The reported description: the Description (missing as empty) with tags stripped, then HTML-decoded; the stripped text when decoding throws. |
| KanbanProvider.DescriptionTextClean | Kanban/KanbanIssueTrackingProvider.cs:122-132 | When HtmlDecode throws, the description is the stripped text itself: it holds no tag span and keeps the original characters in order. (The clause for a successful decode only unfolds the definition.) |
| KanbanProvider.Card.constructor | Kanban/KanbanIssueTrackingProvider.cs:112-123 | A card holds its Id, Title, Tags, Description and LaneId. |
| KanbanProvider.LastLanePos | Kanban/KanbanIssueTrackingProvider.cs:96-100 | On a non-empty board, selects the first lane with the largest Index. Ties in Index are taken to go to the first lane, as a stable descending sort would give (see Left out). |
| KanbanProvider.LastLaneId | Kanban/KanbanIssueTrackingProvider.cs:96-100 | The Id of the lane `LastLanePos` selects, or 0 (FirstOrDefault) for a board without lanes. |
| KanbanProvider.FirstCard | Kanban/KanbanIssueTrackingProvider.cs:185-188 | Finds the first card of a lane with the given Id, or reports that there is none. |
| KanbanProvider.FindCard | Kanban/KanbanIssueTrackingProvider.cs:185-188 | Finds the first card with the given Id, lanes in order and cards in order within each lane, or reports that no card has that Id. |
| KanbanProvider.LaneByTitle | Kanban/KanbanIssueTrackingProvider.cs:174-178 | Finds the first lane whose Title equals the status ignoring case, or reports that there is none. |
| KanbanProvider.GetIssues | Kanban/KanbanIssueTrackingProvider.cs:88-140 | Gives no issues when no board is selected. Otherwise it returns exactly `BoardIssues` for the release tag and the last lane's Id (0 on a board without lanes). So for every tagged card, in lane order then card order, it gives an issue with the card's Id and Title, the lane's Title as status, the cleaned description, and closed exactly when the lane's Id is the last lane's. |
| KanbanProvider.CardsIssuesSound | Kanban/KanbanIssueTrackingProvider.cs:112-135 | Every issue listed for a lane is the one reported for some card of the lane that carries the release tag. |
| KanbanProvider.CardsIssuesComplete | Kanban/KanbanIssueTrackingProvider.cs:112-135 | Every card of a lane that carries the release tag has its issue listed. |
| KanbanProvider.CardsIssuesMembers | Kanban/KanbanIssueTrackingProvider.cs:112-135 | Within a lane, an issue is listed exactly when a card of the lane carries the release tag and the issue is the one reported for it. |
| KanbanProvider.CardIssue | Kanban/KanbanIssueTrackingProvider.cs:120-134 | The issue for a card: its Id and Title, its lane's Title as status, the cleaned description, the release number, and closed exactly when the lane's Id is the last lane's. Stated through `GetIssues` and the lemmas above. |
| KanbanProvider.CardsIssues | Kanban/KanbanIssueTrackingProvider.cs:112-136 | The issues of one lane's tagged cards, in card order; characterised by `CardsIssuesMembers` and `CardsIssuesConcat`. |
| KanbanProvider.CardsIssuesConcat | Kanban/KanbanIssueTrackingProvider.cs:112-136 | Issues follow card order: listing two runs of a lane's cards gives the first run's issues followed by the second's. |
| KanbanProvider.BoardIssues | Kanban/KanbanIssueTrackingProvider.cs:104-139 | The issues of the whole board, lane after lane; characterised by `BoardIssuesSound`, `BoardIssuesComplete` and `BoardIssuesConcat`. |
| KanbanProvider.BoardIssuesSound | Kanban/KanbanIssueTrackingProvider.cs:106-137 | Every listed issue is reported by some tagged card of some lane. |
| KanbanProvider.BoardIssuesComplete | Kanban/KanbanIssueTrackingProvider.cs:106-137 | Every tagged card of every lane is listed. |
| KanbanProvider.BoardIssuesConcat | Kanban/KanbanIssueTrackingProvider.cs:106-137 | Issues follow lane order: listing two runs of lanes gives the first run's issues followed by the second's. |
| KanbanProvider.AppendIssueDescription | Kanban/KanbanIssueTrackingProvider.cs:155-168 | Empty text changes nothing. Otherwise, with no board selected, the call fails without a change. Otherwise the Description becomes the old Description (null as empty) followed by the text, and LaneId is unchanged. |
| KanbanProvider.ChangeIssueStatus | Kanban/KanbanIssueTrackingProvider.cs:169-196 | Fails without a change when no board is selected, when no lane's Title equals the status ignoring case, or when no card has the Id, in that order. Otherwise only the first card with the Id changes, and only its LaneId: it becomes the Id of the first matching lane. |
| KanbanProvider.CloseIssue | Kanban/KanbanIssueTrackingProvider.cs:197-221 | Fails without a change when no board is selected, when the board has no lanes, or when no card has the Id. Otherwise only the first card with the Id changes: its LaneId becomes the last lane's Id, the lane a listing reports as closed. |
| KanbanProvider.CheckReply | Kanban/KanbanIssueTrackingProvider.cs:288-296 | Passes a reply's payload unchanged exactly when its code lies in 200-203. Otherwise it fails with `Server responded with error: ` followed by the reply text, or by the code's name or number when the text is empty. |
| KanbanProvider.CheckReplyAcceptsSuccessMembers | Kanban/KanbanIssueTrackingProvider.cs:288 | The four codes compared one by one are exactly the enum's success members: a reply passes iff its code names DataRetrievalSuccess, DataInsertSuccess, DataUpdateSuccess or DataDeleteSuccess. |
| KanbanProvider.GetResponse | Kanban/KanbanIssueTrackingProvider.cs:278-296 | A reply that cannot be decoded is an unexpected response carrying the decoding error. A decoded reply goes through `CheckReply`: it yields its payload exactly when its code is in 200-203, and otherwise fails with `Server responded with error: ` followed by the reply text, or by the code's text when the reply text is empty. |
| KanbanProvider.DefaultPayloadOnOtherSuccessCodes | Kanban/KanbanIssueTrackingProvider.cs:288-296 | Under codes 201-203, a payload that neither has nor converts to the payload type reaches the caller as the default value, not as an error. |
| KanbanProvider.EnvelopeSuccessExample | Kanban/ResponseObject.cs:26-30 | `{"ReplyCode":200,"ReplyData":[1,2,3]}` read as a list returns the list. |
| KanbanProvider.EnvelopeToleratedMismatchExample | Kanban/ResponseObject.cs:33-41 | `{"ReplyCode":502,"ReplyText":"bad","ReplyData":"oops"}` read as a list decodes with a default payload, and the request then fails with the server's text `bad`. |
| KanbanProvider.EnvelopeHardFailureExample | Kanban/ResponseObject.cs:39-40 | `{"ReplyCode":200,"ReplyData":"not-a-list"}` read as a list fails to decode, and the request fails as an unexpected response. |

## Left out

- HTTP transport is not modelled: `GetData`, `PostData`, and the request and read half of `GetResponse` (HttpWebRequest, credentials, cache policy). These are I/O. The board a request would fetch is a parameter. What `PostData` would send is the updated `Card` object.
- A WebException and invalid JSON are not modelled as errors. Both are transport or parser failures. `GetResponse` starts from the parsed value.
- `ApiUrl` and `GetIssueUrl` are left out. They are URL formatting over `HttpUtility.UrlEncode`.
- The JSON parser (`JsonReader.ParseJson`) is left out. The JavaScriptObject and JavaScriptArray types it returns are not part of this model; the `Value` tree stands for them.
- Numbers are opaque text (`Number(text)`) and dates are opaque round-trip text. This is because `writer.Write` of a numeric value and `DateTime.ToString("o")` use the platform formatter.
- Reflection is replaced by an explicit property list (`Object(text, properties)`) in declaration order. The object's `ToString` text is given with the value.
- `HttpUtility.HtmlDecode`, `Convert.ToInt32`, `Convert.ChangeType`, the `is TData` test and `ToString` are oracle parameters. Their own behaviour is not modelled.
- `KanbanProvider.EqualsIgnoreCase`: ordinal case-insensitive comparison is modelled by upper-casing ASCII letters only. Non-ASCII case mappings of the platform are not modelled.
- `ChangeIssueStatus` and `CloseIssue` take the card Id as an integer. The `int.Parse` of the issue Id string, and its FormatException, are not modelled.
- Malformed boards are not modelled. A board whose lanes or cards lack `Id`, `Index`, `Title` or `Cards`, or hold values those casts reject, would throw. Lanes are typed records whose fields are already converted.
- The Tags and Description members are taken to be strings or absent. The `ToString` of a non-string value there is not modelled.
- The writer's null checks on `writer` and `obj` in `WriteJsonObject` and `WriteJsonDictionary` are not modelled. They cannot fail when called from `WriteJson`.
- Dictionary keys are strings. The `ToString` of other key types is not modelled.
- KanbanProvider.GetResponse: built on the corrected decoder, so a reply that is not a JSON object surfaces as an unexpected response carrying NotAnObject; the code as written would carry the null-dereference message instead (see Findings).
- KanbanProvider.LastLanePos: the source sorts with the `Inedo.Linq` OrderByDescending, whose code is not part of this model; ties in Index are taken to go to the first lane, as the stable sort of System.Linq would give.
- A null string is modelled as empty text. JsonEncode returns null for null, and a TextWriter writes null as nothing, so the output is the same.
- `NoCategory` stands for the exception from indexing `CategoryIdFilter[0]`. `AppendIssueDescription`, `ChangeIssueStatus` and `CloseIssue` do not test the filter themselves; the indexing throws when it is null or empty.
- `JsonWriter.WriteJsonArray`: the enumerable branch of `WriteJson` is a separate method with the same loop. This keeps each proof small.
- `GetCategories`, `IsIssueClosed`, `ValidateConnection`, `IsAvailable` and the provider's settings are left out. They are either transport calls or trivial accessors.
- The editor control (`KanbanIssueTrackingProviderEditor`) is web UI and is left out.
- `KanbanIssue` and `KanbanCategory` are plain records. `KanbanIssue` is the `Issue` datatype; `KanbanCategory` is not modelled.

## Findings

| source | as written | input that shows it | evidently intended | confidence | as-written member | corrected member |
|---|---|---|---|---|---|---|
| Kanban/ResponseObject.cs:12-14 | When the parsed reply is not a JSON object, the cast result `obj` is null. The error message then calls `obj.GetType()`, which throws a NullReferenceException. | A reply whose JSON text is a bare array, e.g. `[]` | Report `Expected object as response; got JavaScriptArray instead.` using the type of `parsedJson` | high (not executed) | ResponseObject.DecodeAsWritten, ResponseObject.NonObjectDereferencesNull | ResponseObject.Decode (used by KanbanProvider.GetResponse) |
