/**
 The two JSON decodings that parseMsg performs, taken abstractly.

 The bridge relies on encoding/json twice: once to fill a Device record from the
 datagram text, and once to decode the Device's `data` string (double-encoded JSON)
 into a map from field names to arbitrary values. The parser itself is not part of
 this model: a Decoder carries one total function per decoding, and the model fixes
 only what every JSON parser must do with empty text (reject it).
 */
module Json {

  /** The Device record of the gateway's outer JSON envelope; every field is a Go string. */
  datatype Device = Device(
    cmd: string,
    token: string,
    model: string,
    sid: string,
    shortId: string,
    data: string)

  /** The zero value `Device{}`: every field is the empty string. */
  const ZeroDevice := Device("", "", "", "", "", "")

  /**
   A decoded value of the inner map (Go's interface{}). A JSON string decodes to a
   Go string and is rendered by `%s` unchanged; any other value (number, boolean,
   null, array, object) carries the text that fmt produces for it under `%s`.
   */
  datatype Value = Text(s: string) | NonText(formatted: string)

  /** The inner field map: field names are unique, their order carries no meaning. */
  type Fields = map<string, Value>

  /** Outcome of one call of json.Unmarshal. */
  datatype Decoded<T> = Ok(value: T) | Err

  /**
   The JSON parser as two total functions of the input text: one for the outer
   envelope into a Device, one for the inner `data` into a field map (where `null`
   and `{}` both decode to the empty map, and a non-object is an error).
   */
  datatype Decoder = Decoder(device: string -> Decoded<Device>, fields: string -> Decoded<Fields>)

  /** json.Unmarshal into a Device; empty input is a syntax error. */
  function UnmarshalDevice(dec: Decoder, text: string): Decoded<Device>
  {
    if text == "" then Err else dec.device(text)
  }

  /** json.Unmarshal into map[string]interface{}; empty input is a syntax error. */
  function UnmarshalFields(dec: Decoder, data: string): Decoded<Fields>
  {
    if data == "" then Err else dec.fields(data)
  }

  /**
   The Device parseMsg works with: the decoder's error is discarded, so on a
   decoding failure the record keeps its zero value.
   */
  function Envelope(dec: Decoder, text: string): Device
  {
    match UnmarshalDevice(dec, text)
    case Ok(d) => d
    case Err => ZeroDevice
  }
}
