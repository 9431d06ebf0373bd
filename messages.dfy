/**
 The decode/fan-out step of the bridge as a specification: which (topic, payload)
 pairs one datagram text yields, and what can be proved about them.

 For a decoded field map with n > 0 entries the bridge emits n messages, one per
 field, in Go's unspecified map iteration order; for an empty map it emits one
 message for the device itself with an empty payload; when the inner `data` does
 not decode it panics and emits nothing.
 */
module Messages {
  import opened Json
  import opened Seqs

  /** One (topic, payload) pair handed to the forwarder (a two-element []string in the source). */
  datatype Message = Message(topic: string, payload: string)

  /** What parseMsg does with one datagram: it panics, or it emits `msgs` in this order. */
  datatype Outcome = Panic | Msgs(msgs: seq<Message>)

  /** The fixed root of every published topic. */
  const TopicRoot := "/mibridge/"

  /** The topic of a device whose field map is empty: `/mibridge/{model}/{sid}`. */
  function DeviceTopic(model: string, sid: string): string {
    TopicRoot + model + "/" + sid
  }

  /** The topic of one field: `/mibridge/{model}/{sid}/{name}`. */
  function FieldTopic(model: string, sid: string, name: string): string {
    DeviceTopic(model, sid) + "/" + name
  }

  /** The payload text of a field value, as `fmt.Sprintf("%s", v)` renders it. */
  function Payload(v: Value): string {
    match v
    case Text(s) => s
    case NonText(formatted) => formatted
  }

  /** The message emitted for the field `name` with value `v`. */
  function FieldMessage(model: string, sid: string, name: string, v: Value): Message {
    Message(FieldTopic(model, sid, name), Payload(v))
  }

  /** The messages emitted when the fields are visited in the order `order`. */
  function FieldMessages(model: string, sid: string, fields: Fields, order: seq<string>): (msgs: seq<Message>)
    requires forall name :: name in order ==> name in fields
    ensures |msgs| == |order|
    ensures forall i :: 0 <= i < |order| ==> msgs[i] == FieldMessage(model, sid, order[i], fields[order[i]])
  {
    if order == [] then []
    else
      var init, name := order[..|order| - 1], order[|order| - 1];
      FieldMessages(model, sid, fields, init) + [FieldMessage(model, sid, name, fields[name])]
  }

  /** `order` visits every field name of `fields` exactly once: a possible map iteration order. */
  ghost predicate Enumerates(order: seq<string>, fields: Fields) {
    NoDuplicates(order) && forall name :: name in order <==> name in fields
  }

  /** `msgs` is what the fan-out loop emits for `fields` under some iteration order. */
  ghost predicate IsFanOut(msgs: seq<Message>, model: string, sid: string, fields: Fields) {
    exists order :: Enumerates(order, fields) && msgs == FieldMessages(model, sid, fields, order)
  }

  /**
   The specification of parseMsg: the outcome `out` is one that parseMsg can
   produce for the datagram `text` under the decoder `dec`.
   */
  ghost predicate Parsed(dec: Decoder, text: string, out: Outcome) {
    var dev := Envelope(dec, text);
    match UnmarshalFields(dec, dev.data)
    case Err => out.Panic?
    case Ok(fields) =>
      && out.Msgs?
      && if |fields| > 0 then IsFanOut(out.msgs, dev.model, dev.sid, fields)
         else out.msgs == [Message(DeviceTopic(dev.model, dev.sid), "")]
  }

  /** Within one device, distinct field names give distinct topics. */
  lemma FieldTopicInjective(model: string, sid: string, a: string, b: string)
    ensures FieldTopic(model, sid, a) == FieldTopic(model, sid, b) <==> a == b
  {
    var prefix := DeviceTopic(model, sid) + "/";
    if FieldTopic(model, sid, a) == FieldTopic(model, sid, b) {
      assert FieldTopic(model, sid, a) == prefix + a;
      assert FieldTopic(model, sid, b) == prefix + b;
      assert a == (prefix + a)[|prefix|..];
      assert b == (prefix + b)[|prefix|..];
    }
  }

  /** A field's topic extends its device's topic. */
  lemma FieldTopicExtendsDevice(model: string, sid: string, name: string)
    ensures DeviceTopic(model, sid) <= FieldTopic(model, sid, name)
  {
    var root, tail := DeviceTopic(model, sid), "/" + name;
    assert FieldTopic(model, sid, name) == root + tail;
  }

  /** Visiting every field once emits exactly one message per field. */
  lemma FanOutSize(model: string, sid: string, fields: Fields, order: seq<string>)
    requires Enumerates(order, fields)
    ensures |FieldMessages(model, sid, fields, order)| == |fields|
  {
    DistinctCardinality(order);
    assert Elements(order) == fields.Keys;
  }

  /** The topics of one fan-out are pairwise distinct. */
  lemma FanOutTopicsDistinct(model: string, sid: string, fields: Fields, order: seq<string>)
    requires Enumerates(order, fields)
    ensures forall i, j :: 0 <= i < j < |order| ==>
      FieldMessages(model, sid, fields, order)[i].topic != FieldMessages(model, sid, fields, order)[j].topic
  {
    var msgs := FieldMessages(model, sid, fields, order);
    forall i, j | 0 <= i < j < |msgs| ensures msgs[i].topic != msgs[j].topic {
      FieldTopicInjective(model, sid, order[i], order[j]);
    }
  }

  /** A fan-out emits the message of every field, and nothing else. */
  lemma FanOutMembers(model: string, sid: string, fields: Fields, order: seq<string>)
    requires Enumerates(order, fields)
    ensures forall name :: name in fields ==>
      FieldMessage(model, sid, name, fields[name]) in FieldMessages(model, sid, fields, order)
    ensures forall m :: m in FieldMessages(model, sid, fields, order) ==>
      exists name :: name in fields && m == FieldMessage(model, sid, name, fields[name])
  {
    var msgs := FieldMessages(model, sid, fields, order);
    forall name | name in fields ensures FieldMessage(model, sid, name, fields[name]) in msgs {
      assert name in order;
      var i :| 0 <= i < |order| && order[i] == name;
      assert msgs[i] == FieldMessage(model, sid, name, fields[name]);
    }
    forall m | m in msgs
      ensures exists name :: name in fields && m == FieldMessage(model, sid, name, fields[name])
    {
      var i :| 0 <= i < |msgs| && msgs[i] == m;
      var name := order[i];
      assert name in fields && m == FieldMessage(model, sid, name, fields[name]);
    }
  }

  /** The message published under a string-valued field's topic carries the string unchanged. */
  lemma FanOutTextPayload(model: string, sid: string, fields: Fields, order: seq<string>, name: string, i: int)
    requires Enumerates(order, fields)
    requires name in fields && fields[name].Text?
    requires 0 <= i < |order| && FieldMessages(model, sid, fields, order)[i].topic == FieldTopic(model, sid, name)
    ensures FieldMessages(model, sid, fields, order)[i].payload == fields[name].s
  {
    FieldTopicInjective(model, sid, order[i], name);
  }

  /** Every topic of a fan-out lies under the device's own topic. */
  lemma FanOutTopicsUnderDevice(model: string, sid: string, fields: Fields, order: seq<string>)
    requires Enumerates(order, fields)
    ensures forall i :: 0 <= i < |order| ==>
      DeviceTopic(model, sid) <= FieldMessages(model, sid, fields, order)[i].topic
  {
    forall i | 0 <= i < |order| ensures DeviceTopic(model, sid) <= FieldMessages(model, sid, fields, order)[i].topic {
      FieldTopicExtendsDevice(model, sid, order[i]);
    }
  }

  /** Any two iteration orders of the same fields emit permutations of one another. */
  lemma FanOutUniqueUpToOrder(model: string, sid: string, fields: Fields, order1: seq<string>, order2: seq<string>)
    requires Enumerates(order1, fields) && Enumerates(order2, fields)
    ensures multiset(FieldMessages(model, sid, fields, order1)) == multiset(FieldMessages(model, sid, fields, order2))
  {
    var a, b := FieldMessages(model, sid, fields, order1), FieldMessages(model, sid, fields, order2);
    FanOutNoDuplicates(model, sid, fields, order1);
    FanOutNoDuplicates(model, sid, fields, order2);
    FanOutSameMessages(model, sid, fields, order1, order2);
    FanOutSameMessages(model, sid, fields, order2, order1);
    DistinctSameElementsSameBag(a, b);
  }

  /** No message is emitted twice by one fan-out. */
  lemma FanOutNoDuplicates(model: string, sid: string, fields: Fields, order: seq<string>)
    requires Enumerates(order, fields)
    ensures NoDuplicates(FieldMessages(model, sid, fields, order))
  {
    var msgs := FieldMessages(model, sid, fields, order);
    FanOutTopicsDistinct(model, sid, fields, order);
    forall i, j | 0 <= i < j < |msgs| ensures msgs[i] != msgs[j] {
      assert msgs[i].topic != msgs[j].topic;
    }
  }

  /** Every message of one iteration order is emitted under any other. */
  lemma FanOutSameMessages(model: string, sid: string, fields: Fields, order1: seq<string>, order2: seq<string>)
    requires Enumerates(order1, fields) && Enumerates(order2, fields)
    ensures forall m :: m in FieldMessages(model, sid, fields, order1) ==> m in FieldMessages(model, sid, fields, order2)
  {
    var a, b := FieldMessages(model, sid, fields, order1), FieldMessages(model, sid, fields, order2);
    forall m | m in a ensures m in b {
      var i :| 0 <= i < |a| && a[i] == m;
      var name := order1[i];
      assert name in order2;
      var j :| 0 <= j < |order2| && order2[j] == name;
      assert b[j] == m;
    }
  }

  /**
   A datagram whose outer JSON does not decode leaves the Device at its zero value,
   whose empty `data` is not valid JSON either: parseMsg panics.
   */
  lemma MalformedEnvelopePanics(dec: Decoder, text: string, out: Outcome)
    requires UnmarshalDevice(dec, text).Err?
    ensures Envelope(dec, text) == ZeroDevice
    ensures Parsed(dec, text, out) <==> out == Panic
  {
  }

  /**
   A datagram yields messages only if its envelope decodes and carries a `data`
   field that decodes in turn: no malformed datagram is ever passed over.
   */
  lemma MessagesNeedDecodableEnvelope(dec: Decoder, text: string, msgs: seq<Message>)
    requires Parsed(dec, text, Msgs(msgs))
    ensures UnmarshalDevice(dec, text).Ok?
    ensures Envelope(dec, text).data != ""
    ensures UnmarshalFields(dec, Envelope(dec, text).data).Ok?
  {
  }

  /** An absent or empty `data` field makes parseMsg panic; it never takes the empty-map branch. */
  lemma EmptyDataPanics(dec: Decoder, text: string, out: Outcome)
    requires Envelope(dec, text).data == ""
    ensures Parsed(dec, text, out) <==> out == Panic
  {
  }

  /** A `data` that decodes to an empty map (`{}` or `null`) yields exactly the device message with an empty payload. */
  lemma EmptyFieldsSingleMessage(dec: Decoder, text: string, out: Outcome)
    requires UnmarshalFields(dec, Envelope(dec, text).data) == Ok(map[])
    ensures Parsed(dec, text, out) <==>
      out == Msgs([Message(DeviceTopic(Envelope(dec, text).model, Envelope(dec, text).sid), "")])
  {
  }

  /**
   A `data` that decodes to n > 0 fields yields exactly n messages with pairwise
   distinct topics, among them the message of every field.
   */
  lemma ParsedFieldCount(dec: Decoder, text: string, out: Outcome)
    requires Parsed(dec, text, out)
    requires UnmarshalFields(dec, Envelope(dec, text).data).Ok?
    requires |UnmarshalFields(dec, Envelope(dec, text).data).value| > 0
    ensures out.Msgs? && |out.msgs| == |UnmarshalFields(dec, Envelope(dec, text).data).value|
    ensures forall i, j :: 0 <= i < j < |out.msgs| ==> out.msgs[i].topic != out.msgs[j].topic
    ensures var dev := Envelope(dec, text); var fields := UnmarshalFields(dec, dev.data).value;
      forall name :: name in fields ==> FieldMessage(dev.model, dev.sid, name, fields[name]) in out.msgs
  {
    var dev := Envelope(dec, text);
    var fields := UnmarshalFields(dec, dev.data).value;
    var order :| Enumerates(order, fields) && out.msgs == FieldMessages(dev.model, dev.sid, fields, order);
    FanOutSize(dev.model, dev.sid, fields, order);
    FanOutTopicsDistinct(dev.model, dev.sid, fields, order);
    FanOutMembers(dev.model, dev.sid, fields, order);
  }

  /** A string-valued field's message, found by its topic among parseMsg's output, carries the string unchanged. */
  lemma ParsedTextPayload(dec: Decoder, text: string, out: Outcome, name: string, i: int)
    requires Parsed(dec, text, out)
    requires UnmarshalFields(dec, Envelope(dec, text).data).Ok?
    requires name in UnmarshalFields(dec, Envelope(dec, text).data).value
    requires UnmarshalFields(dec, Envelope(dec, text).data).value[name].Text?
    requires out.Msgs? && 0 <= i < |out.msgs|
    requires out.msgs[i].topic == FieldTopic(Envelope(dec, text).model, Envelope(dec, text).sid, name)
    ensures out.msgs[i].payload == UnmarshalFields(dec, Envelope(dec, text).data).value[name].s
  {
    var dev := Envelope(dec, text);
    var fields := UnmarshalFields(dec, dev.data).value;
    var order :| Enumerates(order, fields) && out.msgs == FieldMessages(dev.model, dev.sid, fields, order);
    FanOutTextPayload(dev.model, dev.sid, fields, order, name, i);
  }

  /** Every topic parseMsg emits lies under the device's own topic `/mibridge/{model}/{sid}`. */
  lemma ParsedTopicsUnderDevice(dec: Decoder, text: string, out: Outcome)
    requires Parsed(dec, text, out) && out.Msgs?
    ensures forall i :: 0 <= i < |out.msgs| ==>
      DeviceTopic(Envelope(dec, text).model, Envelope(dec, text).sid) <= out.msgs[i].topic
  {
    var dev := Envelope(dec, text);
    var decoded := UnmarshalFields(dec, dev.data);
    assert decoded.Ok?;
    var fields := decoded.value;
    var root := DeviceTopic(dev.model, dev.sid);
    if |fields| > 0 {
      var order :| Enumerates(order, fields) && out.msgs == FieldMessages(dev.model, dev.sid, fields, order);
      FanOutTopicsUnderDevice(dev.model, dev.sid, fields, order);
      forall i | 0 <= i < |out.msgs| ensures root <= out.msgs[i].topic {
        assert out.msgs[i] == FieldMessages(dev.model, dev.sid, fields, order)[i];
      }
    } else {
      assert out.msgs == [Message(root, "")];
    }
  }

  /** Decoding the same datagram twice gives the same outcome, up to the order of the messages. */
  lemma ParsedUniqueUpToOrder(dec: Decoder, text: string, out1: Outcome, out2: Outcome)
    requires Parsed(dec, text, out1) && Parsed(dec, text, out2)
    ensures out1.Panic? <==> out2.Panic?
    ensures out1.Msgs? ==> multiset(out1.msgs) == multiset(out2.msgs)
  {
    var dev := Envelope(dec, text);
    var decoded := UnmarshalFields(dec, dev.data);
    if decoded.Ok? && |decoded.value| > 0 {
      var fields := decoded.value;
      var order1 :| Enumerates(order1, fields) && out1.msgs == FieldMessages(dev.model, dev.sid, fields, order1);
      var order2 :| Enumerates(order2, fields) && out2.msgs == FieldMessages(dev.model, dev.sid, fields, order2);
      FanOutUniqueUpToOrder(dev.model, dev.sid, fields, order1, order2);
    }
  }
}
