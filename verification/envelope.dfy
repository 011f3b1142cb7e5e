/** The wire envelope: `<id>;<json payload>`, split at the first `;`. */
module Envelope {
  import opened Wrappers
  import JavaText

  const Separator: char := ';'

  /** The message content sendMessage publishes: id, separator, payload text. */
  function Encode(id: string, payload: string): (r: string)
    ensures |r| == |id| + 1 + |payload|
    ensures r[..|id|] == id && r[|id|] == Separator && r[|id| + 1..] == payload
  {
    id + [Separator] + payload
  }

  /** The two halves of a received envelope. */
  datatype Parts = Parts(id: string, payload: string)

  /** Decoding as the subscriber does it: breakAt = indexOf(';'); no
      separator is a malformed message, otherwise the id is the text before
      the first separator and the payload everything after it. */
  function Split(body: string): (r: Option<Parts>)
    ensures r.None? <==> Separator !in body
    ensures r.Some? ==> Separator !in r.value.id
    ensures r.Some? ==> body == Encode(r.value.id, r.value.payload)
  {
    var breakAt := JavaText.IndexOf(body, Separator);
    if breakAt < 0 then None
    else
      assert body == body[..breakAt] + [Separator] + body[breakAt + 1..];
      Some(Parts(body[..breakAt], body[breakAt + 1..]))
  }

  /** The converse of Split's contract: any text that is a separator-free id
      followed by the separator splits back into exactly that id and the rest,
      whatever separators the rest contains. */
  lemma SplitEncode(id: string, payload: string)
    requires Separator !in id
    ensures Split(Encode(id, payload)) == Some(Parts(id, payload))
  {
    var body := Encode(id, payload);
    assert body[|id|] == Separator;
    assert body[..|id|] == id;
    assert body[|id| + 1..] == payload;
  }

  /** The first separator wins: "a;b;c" has id "a" and payload "b;c". */
  lemma FirstSeparatorWins()
    ensures Split("a;b;c") == Some(Parts("a", "b;c"))
  {
    SplitEncode("a", "b;c");
    assert Encode("a", "b;c") == "a;b;c";
  }

  /** Re-bracketing the envelope of an id at the id's first separator. */
  lemma EncodeAtSeparator(id: string, k: nat, payload: string)
    requires k < |id| && id[k] == Separator
    ensures Encode(id, payload) == Encode(id[..k], id[k + 1..] + [Separator] + payload)
  {
    assert id == id[..k] + [Separator] + id[k + 1..];
  }

  /** An id that itself contains the separator is not escaped: its envelope
      splits early, so the receiver sees a shorter id than was sent. */
  lemma SeparatorInIdIsMisread(id: string, payload: string)
    requires Separator in id
    ensures Split(Encode(id, payload)).Some?
    ensures Split(Encode(id, payload)).value.id == id[..JavaText.IndexOf(id, Separator)]
    ensures |Split(Encode(id, payload)).value.id| < |id|
  {
    var k := JavaText.IndexOf(id, Separator);
    EncodeAtSeparator(id, k, payload);
    SplitEncode(id[..k], id[k + 1..] + [Separator] + payload);
  }
}
