// Shared vocabulary of the firmware: the ESP-IDF error codes the components
// return, bytes, and an option type for values a C pointer may leave out.
module Esp {
  /** The esp_err_t values the modelled code returns (ESP_OK, ESP_FAIL, ESP_ERR_*). */
  datatype Err = Ok | Fail | NoMem | InvalidArg | InvalidState | InvalidSize | NotFound | NotSupported

  /** An 8-bit unsigned value (uint8_t). */
  type Byte = bv8

  /** A value that may be missing (a NULL pointer, an absent header, a missing key). */
  datatype Option<T> = None | Some(value: T)

  /** Modulus of a 32-bit unsigned counter (uint32_t). */
  const U32: int := 0x1_0000_0000

  /** animation_decoder_info_t: what a decoder reports about an opened animation. */
  datatype DecoderInfo = DecoderInfo(canvasWidth: nat, canvasHeight: nat, frameCount: nat, hasTransparency: bool)

  function Max(a: int, b: int): int { if a < b then b else a }

  function Min(a: int, b: int): int { if a < b then a else b }
}
