# mibridge: decode/fan-out and forwarding path, in Dafny

mibridge listens for the multicast broadcasts of a Xiaomi home-automation gateway
(UDP group 224.0.0.50, port 9898) and republishes them on an MQTT broker. Each
datagram is a JSON envelope (`cmd`, `token`, `model`, `sid`, `short id`, `data`)
whose `data` field is itself a JSON document mapping field names to values.
`parseMsg` turns one datagram into (topic, payload) pairs:

- the envelope is decoded into a `Device`; a decoding error is discarded, so the
  record keeps its zero value (all fields empty);
- `data` is decoded into a `map[string]interface{}`; if that fails the process panics;
- a map with n > 0 entries yields n pairs `/mibridge/{model}/{sid}/{name}` ↦ the
  value's `%s` text, visited in Go's unspecified map order;
- an empty map (`{}` or `null`) yields the single pair `/mibridge/{model}/{sid}` ↦ "".

The pairs go over an unbuffered channel to a consumer goroutine that publishes
them one at a time, in the order received. The receive loop reads each datagram
into a 1024-byte buffer and parses the prefix `buf[0:n]` it filled.

Files:

- `json.dfy` (module `Json`): the `Device` record, decoded values, and the JSON
  parser taken abstractly as a `Decoder` (one total function per decoding). The
  model itself fixes only that empty text does not decode.
- `seqs.dfy` (module `Seqs`): duplicate-free sequences, `Flatten`, and the
  multiset facts the fan-out proofs need.
- `messages.dfy` (module `Messages`): topics, payloads, the messages of one
  iteration order (`FieldMessages`), the specification `Parsed` of what parseMsg
  may emit for a datagram, and the lemmas about it.
- `bridge.dfy` (module `Bridge`): the imperative side: the channel as a FIFO
  queue, the forwarder's publish loop, the receive buffer and read, `ParseMsg`
  and its fan-out loop, and `Run`, which composes them over a finite run of reads.

Go's `range` over a map is modelled by choosing any not-yet-visited key (`:|`);
`FanOut` returns the order it chose as a ghost value, and `IsFanOut` says a
message sequence comes from some order that visits every key exactly once. Go
strings are byte strings; a byte becomes the Dafny character with the same code.

### Where the code's behaviour is easy to misread

The model follows the code in each case.

- An absent or empty `data` does not take the empty-map branch (one message,
  empty payload): `json.Unmarshal("")` fails and parseMsg panics
  (`Messages.EmptyDataPanics`); only `{}` and `null` reach that branch.
- A malformed outer envelope is not harmless: its decoding error is discarded,
  `Data` stays empty, and parseMsg panics (`Messages.MalformedEnvelopePanics`).
- A read error is not merely logged: a failed read returns no bytes, so parseMsg
  receives "" and panics before the error is logged (`Bridge.EmptyReadPanics`).
- A numeric value such as 1 does not become the payload "1": `%s` on a float64
  gives `%!s(float64=1)`; the model carries that text opaquely (`Json.Value.NonText`).

## Model

| member | source | states |
|---|---|---|
| Json.UnmarshalDevice | mibridge.go:113 | decoding the datagram text into a Device: empty text is an error, any other text is whatever the parser makes of it |
| Json.UnmarshalFields | mibridge.go:116-119 | decoding `data` into a field map: empty text is an error (which parseMsg turns into a panic), any other text is whatever the parser makes of it |
| Json.Envelope | mibridge.go:112-113 | the Device parseMsg goes on with: the decoded record, or the zero Device when decoding fails, since the error is discarded |
| Messages.DeviceTopic | mibridge.go:132 | the topic of the empty-map message, `/mibridge/{model}/{sid}` |
| Messages.FieldTopic | mibridge.go:127 | the topic of one field, `/mibridge/{model}/{sid}/{name}` |
| Messages.Payload | mibridge.go:128 | the `%s` text of a value: a string unchanged, any other value as fmt renders it |
| Messages.FieldMessage | mibridge.go:127-128 | the (topic, payload) pair sent for one field |
| Messages.Parsed | mibridge.go:111-135 | what parseMsg may do with a datagram: panic exactly when `data` does not decode; otherwise emit one field message per key in some iteration order when the map is non-empty, and the single device-topic message with an empty payload when it is empty |
| Messages.FieldMessages | mibridge.go:126-130 | visiting the fields in a given order yields one message per visited name, the i-th being that name's topic and payload text |
| Messages.FieldTopicInjective | mibridge.go:127 | within one device, two field topics are equal exactly when the field names are equal |
| Messages.FieldTopicExtendsDevice | mibridge.go:127 | a field topic `/mibridge/{model}/{sid}/{name}` has the device topic `/mibridge/{model}/{sid}` as a prefix |
| Messages.FanOutSize | mibridge.go:123-130 | visiting each of n fields exactly once, in any order, emits exactly n messages |
| Messages.FanOutTopicsDistinct | mibridge.go:126-127 | when each field is visited once, the topics emitted are pairwise distinct |
| Messages.FanOutMembers | mibridge.go:126-130 | a complete visit of the fields emits the message of every field, and every message it emits is the message of some field |
| Messages.FanOutTextPayload | mibridge.go:127-128 | in a complete visit, the message under a string-valued field's topic carries that string unchanged |
| Messages.FanOutNoDuplicates | mibridge.go:126-130 | a complete visit of the fields emits no message twice |
| Messages.FanOutSameMessages | mibridge.go:126-130 | two complete visits of the same fields, in different orders, emit the same set of messages |
| Messages.FanOutTopicsUnderDevice | mibridge.go:127 | every topic of a fan-out, in any order, lies under the device topic |
| Messages.FanOutUniqueUpToOrder | mibridge.go:126-130 | any two iteration orders of the same fields yield permutations of one another |
| Messages.MalformedEnvelopePanics | mibridge.go:112-119 | when the envelope does not decode, the Device is the zero record and the only possible outcome is a panic |
| Messages.MessagesNeedDecodableEnvelope | mibridge.go:112-119 | a datagram that yields messages had a decodable envelope with a non-empty, decodable `data` |
| Messages.EmptyDataPanics | mibridge.go:116-119 | an empty or absent `data` makes parseMsg panic, and that is its only possible outcome |
| Messages.EmptyFieldsSingleMessage | mibridge.go:131-133 | a `data` decoding to the empty map yields exactly the one device-topic message with payload "" |
| Messages.ParsedFieldCount | mibridge.go:123-130 | a `data` decoding to n > 0 fields yields exactly n messages with pairwise distinct topics, among them the message of every field |
| Messages.ParsedTextPayload | mibridge.go:122-130 | whatever order the map is visited in, the message parseMsg emits under a string field's topic carries that string unchanged |
| Messages.ParsedTopicsUnderDevice | mibridge.go:122-133 | every topic parseMsg emits begins with `/mibridge/{model}/{sid}` |
| Messages.ParsedUniqueUpToOrder | mibridge.go:111-135 | two parses of the same datagram agree on panicking and emit the same multiset of messages |
| Bridge.Delivered | mibridge.go:98-100 | a read leaves at most 1024 bytes: the front of the datagram, cut only when the buffer is full; a failed read leaves none |
| Bridge.ToText | mibridge.go:102 | `string(buf[0:n])` has one character per byte, with the byte's code |
| Bridge.DatagramText | mibridge.go:98-102 | the text parseMsg receives for a read: `string(buf[0:n])` of the bytes the read delivered into the 1024-byte buffer |
| Bridge.DatagramTextBounded | mibridge.go:98-102 | the text handed to parseMsg has at most 1024 characters, matches the datagram's first bytes one for one, is the whole datagram when it fits and its first 1024 bytes otherwise, and is empty after a failed read |
| Bridge.EmptyReadPanics | mibridge.go:100-102 | a failed read or an empty datagram reaches parseMsg as "" and its only outcome is a panic |
| Bridge.Channel.constructor | mibridge.go:152 | a new channel holds no pairs |
| Bridge.Channel.Send | mibridge.go:129 | a send appends the pair at the back of the queue |
| Bridge.Channel.Receive | mibridge.go:58 | a receive returns the front pair and removes it |
| Bridge.Forwarder.constructor | mibridge.go:43-49 | a freshly connected client has published nothing |
| Bridge.Forwarder.Publish | mibridge.go:60-61 | publishing appends (topic, payload) to the published sequence |
| Bridge.Forwarder.Drain | mibridge.go:57-62 | the consumer loop publishes exactly the queued pairs, in queue order, and empties the queue |
| Bridge.FanOut | mibridge.go:126-130 | the loop visits every field exactly once in some order and sends that order's messages after what the channel already held |
| Bridge.ParseMsg | mibridge.go:111-135 | the pairs sent meet `Parsed`: panic with nothing sent when `data` does not decode, a fan-out for a non-empty map, the device message for an empty one |
| Bridge.Receiver.constructor | mibridge.go:98 | the receive buffer is a fresh 1024-byte array |
| Bridge.Receiver.ReadFrom | mibridge.go:100 | the delivered bytes land at the front of the buffer; the rest of the buffer is untouched |
| Bridge.Receiver.Step | mibridge.go:100-102 | one turn of the receive loop leaves the delivered bytes at the front of the buffer (the rest untouched) and sends what parseMsg yields for the delivered text |
| Bridge.Turn | mibridge.go:99-107 | one read followed by the consumer catching up: the buffer holds the delivered bytes at its front, the forwarder publishes exactly what parseMsg sent for that read, and nothing when it panicked |
| Bridge.ProcessedNext | mibridge.go:99-107 | a read parsed without a panic extends the processed prefix of the run by its block of messages |
| Bridge.Run | mibridge.go:152-160 | over a run of reads, the published sequence is the concatenation, in arrival order, of each datagram's messages; the run stops exactly at the first datagram whose parse panics |

## Left out

- MQTT client options, connect, the panic on a failed connect, and disconnect (mibridge.go:39-54): library calls and network I/O. Publishing is a log of (topic, payload) pairs, always QoS 0 and not retained.
- Interface lookup, UDP socket and multicast join, with their log lines (mibridge.go:70-96): network I/O.
- Logging (`log.Println`), including the logging of a read error at mibridge.go:104-106: output only.
- Goroutines, the WaitGroup and the blocking behaviour of the unbuffered channel (mibridge.go:51-53, 75-77, 152-160): the two loops are sequentialised, and a receive on an empty channel, which blocks in Go, is excluded by Channel.Receive's precondition.
- Bridge.Run: the forwarder publishes every pair of a datagram before the next read; in the source the last pair may still be in flight when the next read starts or when a panic ends the process.
- Bridge.Run: the two infinite loops run over a finite sequence of reads.
- Bridge.Delivered: a failed read is taken to deliver no bytes (n = 0).
- The encoding/json parser: a `Decoder` stands for it, and only the empty-text case is decided by the model. A type mismatch in the outer envelope, for which encoding/json fills the other fields and reports an error, is one of the decoder's `Ok` results.
- `fmt.Sprintf("%s", v)` for non-string values: its text is carried as `Json.Value.NonText` instead of being computed.
- The reuse of one `payloadSlice` for every pair of a datagram (mibridge.go:122, 126-129), which races with the consumer: each pair is a fresh value.
- Hard-coded configuration in `main` (mibridge.go:140-150).
