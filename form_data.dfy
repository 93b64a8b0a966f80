/** The browser's `FormData` as the form handlers use it: an ordered list of
    entries, each a key with a text or a file value, to which `append` adds one
    entry at the end and from which `get` reads the first value under a key. */
module FormData {
  import opened Wrappers

  /** A file chosen in a file input; only its name is kept. */
  datatype Upload = Upload(fileName: string)

  datatype Value = Text(text: string) | File(upload: Upload)

  datatype Entry = Entry(key: string, value: Value)

  /** `formData.get(key)`: the value of the first entry under `key`, if any. */
  function Get(entries: seq<Entry>, key: string): (r: Option<Value>)
    ensures r.None? <==> forall i :: 0 <= i < |entries| ==> entries[i].key != key
    decreases |entries|
  {
    if entries == [] then None
    else if entries[0].key == key then Some(entries[0].value)
    else Get(entries[1..], key)
  }

  /** The entry `get` finds is the first one under its key. */
  lemma {:induction false} GetFindsFirst(entries: seq<Entry>, key: string, i: nat)
    requires i < |entries| && entries[i].key == key
    requires forall j :: 0 <= j < i ==> entries[j].key != key
    ensures Get(entries, key) == Some(entries[i].value)
    decreases i
  {
    if i > 0 {
      GetFindsFirst(entries[1..], key, i - 1);
    }
  }

  /** The text entries as a request body, the first value under a key winning;
      file entries travel separately and are not part of it. */
  function TextBody(entries: seq<Entry>): (body: map<string, string>)
    ensures forall k :: k in body ==> Get(entries, k).Some? && Get(entries, k).value == Text(body[k])
    ensures forall k :: k !in body ==> Get(entries, k).None? || Get(entries, k).value.File?
    decreases |entries|
  {
    if entries == [] then map[]
    else
      var rest := TextBody(entries[1..]);
      var e := entries[0];
      if e.value.Text? then rest[e.key := e.value.text] else rest - {e.key}
  }
}
