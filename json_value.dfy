/** The value tree shared by the JSON writer and the reply decoder.

    On the writing side a `Value` stands for the run-time object handed to the
    writer, classified by the first dispatch rule that applies to its type; on
    the reading side it stands for what the JSON reader returns, where a JSON
    object is a `Dictionary` (the reader's JavaScriptObject), a JSON array an
    `Enumerable` (its JavaScriptArray), a JSON string a `Str`, a number a
    `Number`, `true`/`false` a `Bool` and `null` the `Null` reference. */
module JsonValue {
  import opened Wrappers

  datatype Value =
    | Null                                          // the null reference
    | DbNull                                        // System.DBNull.Value
    | Number(text: string)                          // a boxed numeric primitive, with the platform's text for it
    | Bool(b: bool)
    | Str(s: string)
    | JavaScriptLiteral(literalText: string)        // pre-formatted text written verbatim
    | DateTime(roundTrip: string)                   // a date, with its round-trip ("o") text
    | Dictionary(entries: seq<Entry>)               // an IDictionary, in iteration order
    | Enumerable(items: seq<Value>)                 // any other IEnumerable, in iteration order
    | Object(text: string, properties: seq<Entry>)  // anything else: its ToString() text and its public properties

  /** A dictionary entry, or a property with its name and current value. */
  datatype Entry = Entry(key: string, value: Value)

  /** Dictionary lookup: the value stored under `key`, or None when the key is absent. */
  function TryGetValue(entries: seq<Entry>, key: string): (r: Option<Value>)
    ensures r.None? <==> forall i :: 0 <= i < |entries| ==> entries[i].key != key
    ensures r.Some? ==> exists i :: 0 <= i < |entries| && entries[i] == Entry(key, r.value)
  {
    if entries == [] then None
    else if entries[0].key == key then Some(entries[0].value)
    else TryGetValue(entries[1..], key)
  }
}
