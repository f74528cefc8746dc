/** The JSON writer: the string escaping rule, the text each kind of value is
    written as (`Encode`), and the writer methods that append that text to a
    text buffer piece by piece. */
module JsonWriter {
  import opened Wrappers
  import opened JsonValue

  // ---------------------------------------------------------------------------
  // Escaping
  // ---------------------------------------------------------------------------

  /** The characters matched by EscapeRegex: double quote, single quote, backslash. */
  predicate IsQuoteOrBackslash(c: char) {
    c == '"' || c == '\'' || c == '\\'
  }

  predicate IsTabOrNewline(c: char) {
    c == '\t' || c == '\r' || c == '\n'
  }

  /** The characters the escaping rule touches. */
  predicate NeedsEscape(c: char) {
    IsQuoteOrBackslash(c) || IsTabOrNewline(c)
  }

  /** No raw tab, carriage return or line feed in `s`. */
  predicate NoTabOrNewline(s: string) {
    forall i :: 0 <= i < |s| ==> !IsTabOrNewline(s[i])
  }

  /** The regular-expression pass: a backslash is put before every quote and backslash. */
  function EscapeQuotes(s: string): string {
    if s == [] then []
    else (if IsQuoteOrBackslash(s[0]) then ['\\', s[0]] else [s[0]]) + EscapeQuotes(s[1..])
  }

  /** String.Replace with a one-character old value: every `c` becomes `replacement`. */
  function ReplaceChar(s: string, c: char, replacement: string): string {
    if s == [] then []
    else (if s[0] == c then replacement else [s[0]]) + ReplaceChar(s[1..], c, replacement)
  }

  /** The three Replace calls that follow the regular-expression pass, in their order. */
  function ReplaceControls(s: string): string {
    ReplaceChar(ReplaceChar(ReplaceChar(s, '\t', "\\t"), '\r', "\\r"), '\n', "\\n")
  }

  /** Escapes a string for a JSON string literal: the regular-expression pass
      followed by the tab, CR and LF replacements; null or empty text is returned as is. */
  function JsonEncode(s: string): (r: string)
    ensures s == "" ==> r == s
    ensures r == EscapeAll(s)
  {
    PassesAreCharMap(s);
    if s == "" then s else ReplaceControls(EscapeQuotes(s))
  }

  /** Reference definition of the escaping rule: the fixed image of one character. */
  function EscapeChar(c: char): string {
    if IsQuoteOrBackslash(c) then ['\\', c]
    else if c == '\t' then "\\t"
    else if c == '\r' then "\\r"
    else if c == '\n' then "\\n"
    else [c]
  }

  /** Reference definition: every character replaced by its image, in order. */
  function EscapeAll(s: string): string {
    if s == [] then [] else EscapeChar(s[0]) + EscapeAll(s[1..])
  }

  /** How many characters of `s` the escaping rule touches. */
  function EscapedCount(s: string): nat {
    if s == [] then 0 else (if NeedsEscape(s[0]) then 1 else 0) + EscapedCount(s[1..])
  }

  /** Inverse of the escaping rule: a backslash and the next character stand for one character. */
  function Unescape(t: string): string
    decreases |t|
  {
    if t == [] then []
    else if t[0] == '\\' && |t| >= 2 then [UnescapeChar(t[1])] + Unescape(t[2..])
    else [t[0]] + Unescape(t[1..])
  }

  function UnescapeChar(c: char): char {
    if c == 't' then '\t' else if c == 'r' then '\r' else if c == 'n' then '\n' else c
  }

  lemma {:induction false} ReplaceCharConcat(a: string, b: string, c: char, replacement: string)
    ensures ReplaceChar(a + b, c, replacement) == ReplaceChar(a, c, replacement) + ReplaceChar(b, c, replacement)
  {
    if a == [] {
      assert a + b == b;
    } else {
      assert (a + b)[1..] == a[1..] + b;
      ReplaceCharConcat(a[1..], b, c, replacement);
    }
  }

  lemma ReplaceControlsConcat(a: string, b: string)
    ensures ReplaceControls(a + b) == ReplaceControls(a) + ReplaceControls(b)
  {
    ReplaceCharConcat(a, b, '\t', "\\t");
    var a1, b1 := ReplaceChar(a, '\t', "\\t"), ReplaceChar(b, '\t', "\\t");
    ReplaceCharConcat(a1, b1, '\r', "\\r");
    var a2, b2 := ReplaceChar(a1, '\r', "\\r"), ReplaceChar(b1, '\r', "\\r");
    ReplaceCharConcat(a2, b2, '\n', "\\n");
  }

  lemma ReplaceCharOne(c: char, x: char, replacement: string)
    ensures ReplaceChar([c], x, replacement) == if c == x then replacement else [c]
  {
    assert [c][1..] == [];
    assert ReplaceChar([c], x, replacement) == (if c == x then replacement else [c]) + ReplaceChar([], x, replacement);
  }

  /** The later passes leave a one-character string alone unless it is a tab, CR or LF. */
  lemma ReplaceControlsOne(c: char)
    ensures ReplaceControls([c]) == if IsTabOrNewline(c) then EscapeChar(c) else [c]
  {
    ReplaceCharOne(c, '\t', "\\t");
    if c == '\t' {
      assert "\\t" == ['\\'] + ['t'];
      ReplaceCharConcat(['\\'], ['t'], '\r', "\\r");
      ReplaceCharOne('\\', '\r', "\\r");
      ReplaceCharOne('t', '\r', "\\r");
      ReplaceCharConcat(['\\'], ['t'], '\n', "\\n");
      ReplaceCharOne('\\', '\n', "\\n");
      ReplaceCharOne('t', '\n', "\\n");
    } else {
      ReplaceCharOne(c, '\r', "\\r");
      if c == '\r' {
        assert "\\r" == ['\\'] + ['r'];
        ReplaceCharConcat(['\\'], ['r'], '\n', "\\n");
        ReplaceCharOne('\\', '\n', "\\n");
        ReplaceCharOne('r', '\n', "\\n");
      } else {
        ReplaceCharOne(c, '\n', "\\n");
      }
    }
  }

  /** The source's sequence of passes equals the character-by-character rule. */
  lemma {:induction false} PassesAreCharMap(s: string)
    ensures ReplaceControls(EscapeQuotes(s)) == EscapeAll(s)
  {
    if s != [] {
      var c := s[0];
      var q := if IsQuoteOrBackslash(c) then ['\\', c] else [c];
      assert EscapeQuotes(s) == q + EscapeQuotes(s[1..]);
      ReplaceControlsConcat(q, EscapeQuotes(s[1..]));
      PassesAreCharMap(s[1..]);
      if IsQuoteOrBackslash(c) {
        ReplaceControlsConcat(['\\'], [c]);
        ReplaceControlsOne('\\');
        ReplaceControlsOne(c);
        assert ['\\'] + [c] == q;
      } else {
        ReplaceControlsOne(c);
      }
    }
  }

  lemma {:induction false} EscapeAllConcat(a: string, b: string)
    ensures EscapeAll(a + b) == EscapeAll(a) + EscapeAll(b)
  {
    if a == [] {
      assert a + b == b;
    } else {
      assert (a + b)[1..] == a[1..] + b;
      EscapeAllConcat(a[1..], b);
    }
  }

  /** Each input character is replaced by its fixed image, in place: the output is
      the encoding of the text before it, its image, and the encoding of the text after it. */
  lemma JsonEncodeCharImage(s: string, i: nat)
    requires i < |s|
    ensures JsonEncode(s) == JsonEncode(s[..i]) + EscapeChar(s[i]) + JsonEncode(s[i + 1..])
  {
    assert s == s[..i] + ([s[i]] + s[i + 1..]);
    EscapeAllConcat(s[..i], [s[i]] + s[i + 1..]);
    EscapeAllConcat([s[i]], s[i + 1..]);
    assert EscapeAll([s[i]]) == EscapeChar(s[i]) by {
      assert [s[i]][1..] == [];
    }
  }

  /** The output is one character longer than the input per escaped character. */
  lemma {:induction false} JsonEncodeLength(s: string)
    ensures |JsonEncode(s)| == |s| + EscapedCount(s)
  {
    if s != [] {
      JsonEncodeLength(s[1..]);
    }
  }

  /** No raw tab, carriage return or line feed survives the escaping. */
  lemma {:induction false} JsonEncodeNoTabOrNewline(s: string)
    ensures NoTabOrNewline(JsonEncode(s))
  {
    if s != [] {
      JsonEncodeNoTabOrNewline(s[1..]);
      var e, rest := EscapeChar(s[0]), EscapeAll(s[1..]);
      assert EscapeAll(s) == e + rest;
      forall i | 0 <= i < |e + rest|
        ensures !IsTabOrNewline((e + rest)[i])
      {
        if i >= |e| {
          assert (e + rest)[i] == rest[i - |e|];
        }
      }
    }
  }

  /** The escaping loses nothing: unescaping the output gives back the input. */
  lemma {:induction false} JsonEncodeRoundTrip(s: string)
    ensures Unescape(JsonEncode(s)) == s
  {
    if s != [] {
      var e, rest := EscapeChar(s[0]), EscapeAll(s[1..]);
      assert EscapeAll(s) == e + rest;
      JsonEncodeRoundTrip(s[1..]);
      if |e| == 2 {
        assert (e + rest)[2..] == rest;
      } else {
        assert (e + rest)[1..] == rest;
      }
    }
  }

  // ---------------------------------------------------------------------------
  // What each value is written as
  // ---------------------------------------------------------------------------

  function Quoted(s: string): string {
    "\"" + s + "\""
  }

  /** The comma written before the item at position `n` (none before the first). */
  function Separator(n: nat): string {
    if n == 0 then "" else ","
  }

  /** The text the writer produces for `v`; the dispatch order is fixed by the
      classification of the value into one constructor. */
  function Encode(v: Value): string {
    match v
    case Null => "null"
    case DbNull => "null"
    case Number(text) => text
    case Bool(b) => if b then "true" else "false"
    case Str(s) => Quoted(JsonEncode(s))
    case JavaScriptLiteral(text) => text
    case DateTime(roundTrip) => Quoted(roundTrip)
    case Dictionary(entries) => "{" + EncodeMembers(entries) + "}"
    case Enumerable(items) => "[" + EncodeItems(items) + "]"
    case Object(text, properties) =>
      if properties == [] then Quoted(JsonEncode(text)) else "{" + EncodeMembers(properties) + "}"
  }

  /** The body of an array: the items' texts with commas between them. */
  function EncodeItems(items: seq<Value>): string {
    if items == [] then ""
    else EncodeItems(items[..|items| - 1]) + Separator(|items| - 1) + Encode(items[|items| - 1])
  }

  /** The body of an object: `"key":value` for each entry, with commas between them. */
  function EncodeMembers(entries: seq<Entry>): string {
    if entries == [] then ""
    else EncodeMembers(entries[..|entries| - 1]) + Separator(|entries| - 1) + MemberText(entries[|entries| - 1])
  }

  /** Reference shape of a list: the parts with one comma between neighbours. */
  function Join(parts: seq<string>): string {
    if parts == [] then ""
    else if |parts| == 1 then parts[0]
    else parts[0] + "," + Join(parts[1..])
  }

  lemma {:induction false} JoinSnoc(parts: seq<string>, x: string)
    ensures Join(parts + [x]) == Join(parts) + Separator(|parts|) + x
  {
    if |parts| == 1 {
      assert (parts + [x])[1..] == [x];
    } else if |parts| > 1 {
      assert (parts + [x])[1..] == parts[1..] + [x];
      JoinSnoc(parts[1..], x);
    }
  }

  /** An array is written as its items' texts joined by commas, in order:
      `[]` when empty and never a trailing comma. */
  lemma {:induction false} EncodeArrayIsJoin(items: seq<Value>)
    ensures Encode(Enumerable(items)) == "[" + Join(seq(|items|, i requires 0 <= i < |items| => Encode(items[i]))) + "]"
  {
    EncodeItemsIsJoin(items);
  }

  lemma {:induction false} EncodeItemsIsJoin(items: seq<Value>)
    ensures EncodeItems(items) == Join(seq(|items|, i requires 0 <= i < |items| => Encode(items[i])))
  {
    if items != [] {
      var n := |items| - 1;
      var parts := seq(|items|, i requires 0 <= i < |items| => Encode(items[i]));
      var front := seq(n, i requires 0 <= i < n => Encode(items[..n][i]));
      EncodeItemsIsJoin(items[..n]);
      assert parts == front + [Encode(items[n])];
      JoinSnoc(front, Encode(items[n]));
    }
  }

  /** The text of one object member: the key verbatim in quotes, a colon, the value. */
  function MemberText(e: Entry): string {
    "\"" + e.key + "\":" + Encode(e.value)
  }

  /** A dictionary or a property object is written as its members joined by commas,
      in iteration order, keys copied verbatim. */
  lemma {:induction false} EncodeMembersIsJoin(entries: seq<Entry>)
    ensures EncodeMembers(entries) == Join(seq(|entries|, i requires 0 <= i < |entries| => MemberText(entries[i])))
  {
    if entries != [] {
      var n := |entries| - 1;
      var parts := seq(|entries|, i requires 0 <= i < |entries| => MemberText(entries[i]));
      var front := seq(n, i requires 0 <= i < n => MemberText(entries[..n][i]));
      EncodeMembersIsJoin(entries[..n]);
      assert parts == front + [MemberText(entries[n])];
      JoinSnoc(front, MemberText(entries[n]));
    }
  }

  /** A string is written as a quoted literal whose contents unescape to the string itself. */
  lemma EncodeStringRoundTrip(s: string)
    ensures var t := Encode(Str(s));
            |t| >= 2 && t[0] == '"' && t[|t| - 1] == '"' && Unescape(t[1..|t| - 1]) == s
  {
    var t := Encode(Str(s));
    assert t[1..|t| - 1] == JsonEncode(s);
    JsonEncodeRoundTrip(s);
  }

  /** Every text the writer copies verbatim (numbers, literals, dates, keys and
      property names) is free of raw tabs and line breaks. */
  predicate VerbatimClean(v: Value) {
    match v
    case Number(text) => NoTabOrNewline(text)
    case JavaScriptLiteral(text) => NoTabOrNewline(text)
    case DateTime(roundTrip) => NoTabOrNewline(roundTrip)
    case Dictionary(entries) => MembersClean(entries)
    case Enumerable(items) => forall i :: 0 <= i < |items| ==> VerbatimClean(items[i])
    case Object(_, properties) => MembersClean(properties)
    case _ => true
  }

  predicate MembersClean(entries: seq<Entry>) {
    forall i :: 0 <= i < |entries| ==> NoTabOrNewline(entries[i].key) && VerbatimClean(entries[i].value)
  }

  lemma NoTabOrNewlineConcat(a: string, b: string)
    requires NoTabOrNewline(a) && NoTabOrNewline(b)
    ensures NoTabOrNewline(a + b)
  {
    forall i | 0 <= i < |a + b|
      ensures !IsTabOrNewline((a + b)[i])
    {
      if i >= |a| {
        assert (a + b)[i] == b[i - |a|];
      }
    }
  }

  /** When the verbatim parts are clean, the whole JSON text holds no raw tab or line break
      (string contents are escaped). */
  lemma {:induction false} EncodeNoTabOrNewline(v: Value)
    requires VerbatimClean(v)
    ensures NoTabOrNewline(Encode(v))
  {
    match v
    case Null =>
    case DbNull =>
    case Number(_) =>
    case Bool(_) =>
    case Str(s) =>
      JsonEncodeNoTabOrNewline(s);
      NoTabOrNewlineConcat("\"", JsonEncode(s));
      NoTabOrNewlineConcat("\"" + JsonEncode(s), "\"");
    case JavaScriptLiteral(_) =>
    case DateTime(t) =>
      NoTabOrNewlineConcat("\"", t);
      NoTabOrNewlineConcat("\"" + t, "\"");
    case Dictionary(entries) =>
      MembersNoTabOrNewline(entries);
      NoTabOrNewlineConcat("{", EncodeMembers(entries));
      NoTabOrNewlineConcat("{" + EncodeMembers(entries), "}");
    case Enumerable(items) =>
      ItemsNoTabOrNewline(items);
      NoTabOrNewlineConcat("[", EncodeItems(items));
      NoTabOrNewlineConcat("[" + EncodeItems(items), "]");
    case Object(text, properties) =>
      if properties == [] {
        JsonEncodeNoTabOrNewline(text);
        NoTabOrNewlineConcat("\"", JsonEncode(text));
        NoTabOrNewlineConcat("\"" + JsonEncode(text), "\"");
      } else {
        MembersNoTabOrNewline(properties);
        NoTabOrNewlineConcat("{", EncodeMembers(properties));
        NoTabOrNewlineConcat("{" + EncodeMembers(properties), "}");
      }
  }

  lemma {:induction false} ItemsNoTabOrNewline(items: seq<Value>)
    requires forall i :: 0 <= i < |items| ==> VerbatimClean(items[i])
    ensures NoTabOrNewline(EncodeItems(items))
  {
    if items != [] {
      var n := |items| - 1;
      ItemsNoTabOrNewline(items[..n]);
      EncodeNoTabOrNewline(items[n]);
      NoTabOrNewlineConcat(EncodeItems(items[..n]), Separator(n));
      NoTabOrNewlineConcat(EncodeItems(items[..n]) + Separator(n), Encode(items[n]));
    }
  }

  lemma {:induction false} MembersNoTabOrNewline(entries: seq<Entry>)
    requires MembersClean(entries)
    ensures NoTabOrNewline(EncodeMembers(entries))
  {
    if entries != [] {
      var n := |entries| - 1;
      var e := entries[n];
      var front := EncodeMembers(entries[..n]);
      MembersNoTabOrNewline(entries[..n]);
      EncodeNoTabOrNewline(e.value);
      NoTabOrNewlineConcat(front, Separator(n));
      NoTabOrNewlineConcat(front + Separator(n), "\"");
      NoTabOrNewlineConcat(front + Separator(n) + "\"", e.key);
      NoTabOrNewlineConcat(front + Separator(n) + "\"" + e.key, "\":");
      NoTabOrNewlineConcat(front + Separator(n) + "\"" + e.key + "\":", Encode(e.value));
    }
  }

  /** Text the escaping rule does not touch is copied as it is. */
  lemma {:induction false} JsonEncodePlainText(s: string)
    requires forall i :: 0 <= i < |s| ==> !NeedsEscape(s[i])
    ensures JsonEncode(s) == s
  {
    EscapeAllPlain(s);
  }

  lemma {:induction false} EscapeAllPlain(s: string)
    requires forall i :: 0 <= i < |s| ==> !NeedsEscape(s[i])
    ensures EscapeAll(s) == s
  {
    if s != [] {
      EscapeAllPlain(s[1..]);
    }
  }

  // ---------------------------------------------------------------------------
  // The writer
  // ---------------------------------------------------------------------------

  /** The text writer the JSON is appended to (a StringWriter or a request stream). */
  class TextBuffer {
    var text: string

    constructor ()
      ensures text == ""
    {
      text := "";
    }

    method Write(s: string)
      modifies this
      ensures text == old(text) + s
    {
      text := text + s;
    }
  }

  /** Returns the raw-literal wrapper for `s`; a null literal is stored as empty text. */
  function Literal(s: Option<string>): (r: Value)
    ensures r.JavaScriptLiteral?
    ensures Encode(r) == if s.Some? then s.value else ""
  {
    JavaScriptLiteral(s.GetOr(""))
  }

  /** Appends the JSON text of `v` to `writer`. */
  method WriteJson(writer: TextBuffer, v: Value)
    modifies writer
    ensures writer.text == old(writer.text) + Encode(v)
    decreases v, 1
  {
    match v
    case Null => writer.Write("null");
    case DbNull => writer.Write("null");
    case Number(text) => writer.Write(text);
    case Bool(b) => writer.Write(if b then "true" else "false");
    case Str(s) =>
      var encoded := JsonEncode(s);
      WriteQuoted(writer, encoded);
    case JavaScriptLiteral(text) => writer.Write(text);
    case DateTime(roundTrip) => WriteQuoted(writer, roundTrip);
    case Dictionary(_) => WriteJsonDictionary(writer, v);
    case Enumerable(_) => WriteJsonArray(writer, v);
    case Object(text, properties) =>
      if properties == [] {
        var encoded := JsonEncode(text);
        WriteQuoted(writer, encoded);
      } else {
        WriteJsonObject(writer, v);
      }
  }

  /** Appends `s` between double quotes. */
  method WriteQuoted(writer: TextBuffer, s: string)
    modifies writer
    ensures writer.text == old(writer.text) + Quoted(s)
  {
    writer.Write("\"");
    writer.Write(s);
    writer.Write("\"");
  }

  /** Appends an array: the items in iteration order, a comma before every item but the first. */
  method WriteJsonArray(writer: TextBuffer, obj: Value)
    requires obj.Enumerable?
    modifies writer
    ensures writer.text == old(writer.text) + "[" + EncodeItems(obj.items) + "]"
    decreases obj, 0
  {
    var items := obj.items;
    writer.Write("[");
    var first := true;
    for i := 0 to |items|
      invariant first <==> i == 0
      invariant writer.text == old(writer.text) + "[" + EncodeItems(items[..i])
    {
      ghost var before := writer.text;
      if !first {
        writer.Write(",");
      }
      WriteJson(writer, items[i]);
      first := false;
      assert writer.text == before + Separator(i) + Encode(items[i]);
      assert items[..i + 1][..i] == items[..i];
    }
    assert items[..|items|] == items;
    writer.Write("]");
  }

  /** Appends one member: the name in quotes, a colon, and the value. */
  method WriteMember(writer: TextBuffer, e: Entry)
    modifies writer
    ensures writer.text == old(writer.text) + MemberText(e)
    decreases e.value, 2
  {
    writer.Write("\"");
    writer.Write(e.key);
    writer.Write("\":");
    WriteJson(writer, e.value);
  }

  /** Appends an object with one member per public property, in declaration order. */
  method WriteJsonObject(writer: TextBuffer, obj: Value)
    requires obj.Object?
    modifies writer
    ensures writer.text == old(writer.text) + "{" + EncodeMembers(obj.properties) + "}"
    decreases obj, 0
  {
    var properties := obj.properties;
    writer.Write("{");
    var first := true;
    for i := 0 to |properties|
      invariant first <==> i == 0
      invariant writer.text == old(writer.text) + "{" + EncodeMembers(properties[..i])
    {
      ghost var before := writer.text;
      if !first {
        writer.Write(",");
      }
      assert writer.text == before + Separator(i);
      WriteMember(writer, properties[i]);
      first := false;
      assert properties[..i + 1][..i] == properties[..i];
      assert EncodeMembers(properties[..i + 1]) == EncodeMembers(properties[..i]) + Separator(i) + MemberText(properties[i]);
    }
    assert properties[..|properties|] == properties;
    writer.Write("}");
  }

  /** Appends an object with one member per dictionary entry, in iteration order. */
  method WriteJsonDictionary(writer: TextBuffer, obj: Value)
    requires obj.Dictionary?
    modifies writer
    ensures writer.text == old(writer.text) + "{" + EncodeMembers(obj.entries) + "}"
    decreases obj, 0
  {
    var entries := obj.entries;
    writer.Write("{");
    var first := true;
    for i := 0 to |entries|
      invariant first <==> i == 0
      invariant writer.text == old(writer.text) + "{" + EncodeMembers(entries[..i])
    {
      ghost var before := writer.text;
      if !first {
        writer.Write(",");
      }
      assert writer.text == before + Separator(i);
      WriteMember(writer, entries[i]);
      first := false;
      assert entries[..i + 1][..i] == entries[..i];
      assert EncodeMembers(entries[..i + 1]) == EncodeMembers(entries[..i]) + Separator(i) + MemberText(entries[i]);
    }
    assert entries[..|entries|] == entries;
    writer.Write("}");
  }

  /** Returns the JSON text of `v`: what the writer appends to an empty buffer. */
  method ToJson(v: Value) returns (json: string)
    ensures json == Encode(v)
  {
    var buffer := new TextBuffer();
    WriteJson(buffer, v);
    json := buffer.text;
  }
}
