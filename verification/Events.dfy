/** The event message and the names derived from it (apis/events). */
module Events {
  import opened Wrappers
  import opened Text
  import Decimal

  /** `id` names the event; the other metadata fields play no part here and travel as `rest`. */
  datatype EventMeta = EventMeta(id: string, rest: Bytes)

  datatype EventMessage = EventMessage(category: i32, action: i32, target: string, metadata: Option<EventMeta>)

  /** What `EventMessage::default()` gives. */
  const DEFAULT_MESSAGE := EventMessage(0, 0, "", None)

  /** The JSON library: text and bytes to messages and back. */
  datatype Codec = Codec(
    encode: EventMessage -> Option<Bytes>,
    decode: Bytes -> Option<EventMessage>,
    parse: string -> Option<EventMessage>)

  /** What is assumed of it: a payload it wrote, it can read. */
  ghost predicate Faithful(codec: Codec) {
    forall m: EventMessage :: codec.encode(m).Some? ==> codec.decode(codec.encode(m).value) == Some(m)
  }

  /** "events.<category>.<id>"; None is the InvalidMessageId error. */
  function Subject(m: EventMessage): Option<string> {
    match m.metadata
    case None => None
    case Some(meta) => Some(SubjectPrefix(m.category) + meta.id)
  }

  function SubjectPrefix(category: int): string {
    "events." + Decimal.Integer(category) + "."
  }

  lemma IntegerHasNoDot(i: int)
    ensures '.' !in Decimal.Integer(i)
  {
  }

  /**
   * Every subject falls under the stream's filter "events.>", and names first the category and then the id:
   * what stands behind the prefix, up to the next dot and after it.
   */
  lemma SubjectReadsBack(m: EventMessage)
    requires m.metadata.Some?
    ensures Subject(m).Some? && StartsWith(Subject(m).value, "events.")
    ensures var parts := SplitOnce(Subject(m).value[7..], '.');
            && parts.Some? && Decimal.ReadInteger(parts.value.0) == Some(m.category)
            && parts.value.1 == m.metadata.value.id
  {
    hide SplitOnce, Decimal.Integer, Decimal.ReadInteger;
    var category, id := Decimal.Integer(m.category), m.metadata.value.id;
    assert Subject(m).value == "events." + (category + ['.'] + id);
    assert Subject(m).value[7..] == category + ['.'] + id;
    IntegerHasNoDot(m.category);
    SplitOnceAt(category, '.', id);
    Decimal.IntegerReadsBack(m.category);
  }

  /** Two messages share a subject only if they share category and id, dots in the id or not. */
  lemma SubjectInjective(a: EventMessage, b: EventMessage)
    requires a.metadata.Some? && b.metadata.Some?
    ensures Subject(a) == Subject(b) <==> a.category == b.category && a.metadata.value.id == b.metadata.value.id
  {
    if Subject(a) == Subject(b) {
      var s, ca, cb := Subject(a).value, Decimal.Integer(a.category), Decimal.Integer(b.category);
      var ia, ib := a.metadata.value.id, b.metadata.value.id;
      assert s[7..] == ca + ['.'] + ia;
      assert s[7..] == cb + ['.'] + ib;
      IntegerHasNoDot(a.category);
      IntegerHasNoDot(b.category);
      SplitOnceAt(ca, '.', ia);
      SplitOnceAt(cb, '.', ib);
      Decimal.IntegerInjective(a.category, b.category);
    }
  }
}
