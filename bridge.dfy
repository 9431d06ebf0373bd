/**
 The bridge's data path as imperative code: the receive loop reads one datagram into
 a fixed 1024-byte buffer and hands the prefix it filled to parseMsg; parseMsg
 decodes it and sends each (topic, payload) pair on a channel; the forwarder takes
 pairs off the channel one at a time and publishes them.

 The two goroutines are sequentialised: the channel is unbuffered, so every pair a
 datagram yields has been taken by the forwarder before the next datagram is read,
 and the model lets the forwarder catch up after each datagram.
 */
module Bridge {
  import opened Json
  import opened Seqs
  import opened Messages

  newtype byte = b: int | 0 <= b < 256

  /** The size of the receive buffer, `make([]byte, 1024)`. */
  const BufferSize := 1024

  /** What one ReadFrom on the multicast socket returns: a datagram, or a read error. */
  datatype Read = Packet(bytes: seq<byte>) | ReadError

  /**
   The bytes a read leaves at the front of a buffer of `capacity` bytes: a datagram
   larger than the buffer is cut to the buffer's size, and a failed read delivers nothing.
   */
  function Delivered(r: Read, capacity: nat): (d: seq<byte>)
    ensures |d| <= capacity
    ensures r.ReadError? ==> d == []
    ensures r.Packet? ==> d <= r.bytes && (|d| == |r.bytes| || |d| == capacity)
  {
    match r
    case ReadError => []
    case Packet(bytes) => if |bytes| <= capacity then bytes else bytes[..capacity]
  }

  /** Go's `string(b)`: each byte becomes the character with the same code. */
  function ToText(bytes: seq<byte>): (s: string)
    ensures |s| == |bytes|
    ensures forall i :: 0 <= i < |bytes| ==> s[i] as int == bytes[i] as int
  {
    seq(|bytes|, i requires 0 <= i < |bytes| => bytes[i] as int as char)
  }

  /** The text the receive loop hands to parseMsg for the read `r`. */
  function DatagramText(r: Read): string {
    ToText(Delivered(r, BufferSize))
  }

  /** The text handed to parseMsg is at most 1024 bytes, byte for byte the front of the datagram. */
  lemma DatagramTextBounded(r: Read)
    ensures |DatagramText(r)| <= BufferSize
    ensures r.ReadError? ==> DatagramText(r) == ""
    ensures r.Packet? ==> |DatagramText(r)| == if |r.bytes| <= BufferSize then |r.bytes| else BufferSize
    ensures r.Packet? ==>
      && |DatagramText(r)| <= |r.bytes|
      && (forall i :: 0 <= i < |DatagramText(r)| ==> DatagramText(r)[i] as int == r.bytes[i] as int)
  {
    var d := Delivered(r, BufferSize);
    if r.Packet? {
      forall i | 0 <= i < |d| ensures d[i] == r.bytes[i] {
      }
    }
  }

  /** A failed read (and an empty datagram alike) reaches parseMsg as "" and makes it panic. */
  lemma EmptyReadPanics(dec: Decoder, r: Read, out: Outcome)
    requires r.ReadError? || r == Packet([])
    ensures Parsed(dec, DatagramText(r), out) <==> out == Panic
  {
    assert DatagramText(r) == "";
    MalformedEnvelopePanics(dec, "", out);
  }

  /** The channel between parseMsg and the forwarder, as a FIFO queue. */
  class Channel {
    var items: seq<Message>

    constructor ()
      ensures items == []
    {
      items := [];
    }

    /** `c <- m`: the pair joins the back of the queue. */
    method Send(m: Message)
      modifies this
      ensures items == old(items) + [m]
    {
      items := items + [m];
    }

    /** `m := <-c`: the front pair leaves the queue (a receive on an empty channel would block). */
    method Receive() returns (m: Message)
      requires items != []
      modifies this
      ensures m == old(items)[0] && items == old(items)[1..]
    {
      m := items[0];
      items := items[1..];
    }
  }

  /** The consumer goroutine; `published` is the sequence of pairs it has handed to the broker. */
  class Forwarder {
    var published: seq<Message>

    constructor ()
      ensures published == []
    {
      published := [];
    }

    /** `client.Publish(topic, 0, false, payload)` followed by `token.Wait()`. */
    method Publish(topic: string, payload: string)
      modifies this
      ensures published == old(published) + [Message(topic, payload)]
    {
      published := published + [Message(topic, payload)];
    }

    /** The consumer loop: take each pair off the channel in turn and publish it, until the channel is empty. */
    method Drain(ch: Channel)
      modifies this, ch
      ensures published == old(published) + old(ch.items)
      ensures ch.items == []
    {
      while ch.items != []
        invariant published + ch.items == old(published) + old(ch.items)
        decreases |ch.items|
      {
        ghost var before := ch.items;
        var m := ch.Receive();
        Publish(m.topic, m.payload);
        assert before == [m] + ch.items;
      }
    }
  }

  /**
   The fan-out loop of parseMsg: visit every field of the map once, in an order the
   runtime chooses, and send its (topic, payload) pair. `sent` is what was sent,
   and `order` the order in which the fields were visited.
   */
  method FanOut(model: string, sid: string, fields: Fields, ch: Channel)
    returns (sent: seq<Message>, ghost order: seq<string>)
    modifies ch
    ensures Enumerates(order, fields)
    ensures sent == FieldMessages(model, sid, fields, order)
    ensures ch.items == old(ch.items) + sent
  {
    var remaining := fields.Keys;
    sent, order := [], [];
    while remaining != {}
      invariant remaining <= fields.Keys
      invariant NoDuplicates(order)
      invariant forall name :: name in order <==> name in fields && name !in remaining
      invariant sent == FieldMessages(model, sid, fields, order)
      invariant ch.items == old(ch.items) + sent
      decreases remaining
    {
      var name :| name in remaining;
      var m := FieldMessage(model, sid, name, fields[name]);
      ch.Send(m);
      sent, order := sent + [m], order + [name];
      remaining := remaining - {name};
    }
  }

  /**
   parseMsg: decode the envelope (ignoring its error), decode its `data` (panicking
   on error), then send one pair per field, or the single device pair when the map
   is empty. `emitted` is what was sent.
   */
  method ParseMsg(text: string, dec: Decoder, ch: Channel) returns (panicked: bool, emitted: seq<Message>)
    modifies ch
    ensures Parsed(dec, text, if panicked then Panic else Msgs(emitted))
    ensures panicked ==> emitted == []
    ensures ch.items == old(ch.items) + emitted
  {
    var dev := Envelope(dec, text);
    var data := UnmarshalFields(dec, dev.data);
    if data.Err? {
      return true, [];
    }
    panicked := false;
    if |data.value| > 0 {
      ghost var order;
      emitted, order := FanOut(dev.model, dev.sid, data.value, ch);
    } else {
      var m := Message(DeviceTopic(dev.model, dev.sid), "");
      ch.Send(m);
      emitted := [m];
    }
  }

  /** The multicast listener: its receive buffer, allocated once and reused for every read. */
  class Receiver {
    const buf: array<byte>

    constructor ()
      ensures buf.Length == BufferSize && fresh(buf)
    {
      buf := new byte[BufferSize];
    }

    /** `n, _, _, err := p.ReadFrom(buf)`: the datagram's bytes land at the front of the buffer. */
    method ReadFrom(r: Read) returns (n: nat)
      modifies buf
      ensures n <= buf.Length
      ensures buf[..n] == Delivered(r, buf.Length)
      ensures buf[n..] == old(buf[n..])
    {
      var d := Delivered(r, buf.Length);
      n := |d|;
      forall i | 0 <= i < n {
        buf[i] := d[i];
      }
    }

    /** One turn of the receive loop: read, then parse `string(buf[0:n])`. */
    method Step(r: Read, dec: Decoder, ch: Channel) returns (panicked: bool, emitted: seq<Message>)
      requires buf.Length == BufferSize
      modifies buf, ch
      ensures var d := Delivered(r, BufferSize); buf[..|d|] == d && buf[|d|..] == old(buf[|d|..])
      ensures Parsed(dec, DatagramText(r), if panicked then Panic else Msgs(emitted))
      ensures ch.items == old(ch.items) + emitted
      ensures panicked ==> emitted == []
    {
      var n := ReadFrom(r);
      var text := ToText(buf[..n]);
      panicked, emitted := ParseMsg(text, dec, ch);
    }
  }

  /**
   One turn of the two loops together: the receiver handles one read and the
   forwarder then publishes everything it sent.
   */
  method Turn(rx: Receiver, ch: Channel, fwd: Forwarder, r: Read, dec: Decoder)
    returns (panicked: bool, emitted: seq<Message>)
    requires rx.buf.Length == BufferSize && ch.items == []
    modifies rx.buf, ch, fwd
    ensures var d := Delivered(r, BufferSize); rx.buf[..|d|] == d && rx.buf[|d|..] == old(rx.buf[|d|..])
    ensures Parsed(dec, DatagramText(r), if panicked then Panic else Msgs(emitted))
    ensures fwd.published == old(fwd.published) + emitted && ch.items == []
    ensures panicked ==> emitted == []
  {
    panicked, emitted := rx.Step(r, dec, ch);
    fwd.Drain(ch);
  }

  /** The first |blocks| reads were parsed without a panic, the i-th emitting blocks[i]. */
  ghost predicate Processed(dec: Decoder, arrivals: seq<Read>, blocks: seq<seq<Message>>) {
    && |blocks| <= |arrivals|
    && forall i :: 0 <= i < |blocks| ==> Parsed(dec, DatagramText(arrivals[i]), Msgs(blocks[i]))
  }

  /** Processing one more read extends the processed prefix by its block. */
  lemma ProcessedNext(dec: Decoder, arrivals: seq<Read>, blocks: seq<seq<Message>>, b: seq<Message>)
    requires Processed(dec, arrivals, blocks) && |blocks| < |arrivals|
    requires Parsed(dec, DatagramText(arrivals[|blocks|]), Msgs(b))
    ensures Processed(dec, arrivals, blocks + [b])
  {
    var done := blocks + [b];
    forall i | 0 <= i < |done| ensures Parsed(dec, DatagramText(arrivals[i]), Msgs(done[i])) {
      if i < |blocks| {
        assert done[i] == blocks[i];
      }
    }
  }

  /**
   The bridge over a finite run of arrivals: datagrams are processed in arrival order,
   each one's pairs are published before the next is read, and the first datagram
   that makes parseMsg panic ends the run. `blocks[i]` is what the i-th datagram emitted.
   */
  method Run(arrivals: seq<Read>, dec: Decoder) returns (published: seq<Message>, crashed: bool, blocks: seq<seq<Message>>)
    ensures Processed(dec, arrivals, blocks)
    ensures crashed <==> |blocks| < |arrivals|
    ensures crashed ==> Parsed(dec, DatagramText(arrivals[|blocks|]), Panic)
    ensures published == Flatten(blocks)
  {
    var ch := new Channel();
    var fwd := new Forwarder();
    var rx := new Receiver();
    blocks := [];
    var i := 0;
    while i < |arrivals|
      invariant 0 <= i <= |arrivals| && |blocks| == i
      invariant Processed(dec, arrivals, blocks)
      invariant fwd.published == Flatten(blocks) && ch.items == []
      invariant rx.buf.Length == BufferSize && fresh(rx.buf)
    {
      var panicked, emitted := Turn(rx, ch, fwd, arrivals[i], dec);
      if panicked {
        return fwd.published, true, blocks;
      }
      FlattenAppend(blocks, emitted);
      ProcessedNext(dec, arrivals, blocks, emitted);
      blocks := blocks + [emitted];
      i := i + 1;
    }
    return fwd.published, false, blocks;
  }
}
