// The persistent configuration: a JSON object kept as text under the key
// "cfg" of the device's key/value store, saved through a temporary key
// "cfg_new" that is written, committed and read back before the main key
// is overwritten.
module ConfigStore {
  import opened Esp

  /** Largest serialized configuration accepted, in bytes (MAX_JSON). */
  const MaxJson: nat := 32 * 1024

  /** The key that holds the current configuration (KEY_CUR). */
  const KeyCur: string := "cfg"

  /** The key a save writes first (KEY_NEW). */
  const KeyNew: string := "cfg_new"

  /** The text returned when nothing is stored yet. */
  const EmptyObject: string := "{}"

  /** The store's blobs in the configuration namespace. */
  type Blobs = map<string, string>

  /**
   * A cJSON tree as the store sees it: whether it is an object, and what
   * cJSON_PrintBuffered produces for it (None when printing fails).
   */
  datatype Json = Json(isObject: bool, printed: Option<string>)

  /** The empty object cJSON_CreateObject returns. */
  const EmptyJson: Json := Json(true, Some(EmptyObject))

  /**
   * What the store's own calls return during one operation: opening the
   * namespace (after the re-initialise retry), and each get, set, commit
   * or erase that can fail for reasons of the flash itself.
   */
  datatype Faults = Faults(open: Err, getSize: Err, getData: Err, setTemp: Err, commitTemp: Err,
                           readback: Err, setMain: Err, erase: Err, commitMain: Err)

  /** No store call fails. */
  const NoFaults: Faults := Faults(Ok, Ok, Ok, Ok, Ok, Ok, Ok, Ok, Ok)

  // ---------------------------------------------------------------------
  // Specification of the three operations
  // ---------------------------------------------------------------------

  /** config_store_get_serialized: the error and, on Ok, the text handed back. */
  function Serialized(blobs: Blobs, f: Faults): (Err, string)
  {
    if f.open != Ok then (f.open, "")
    else if KeyCur !in blobs then (Ok, EmptyObject)
    else if f.getSize != Ok then (f.getSize, "")
    else if |blobs[KeyCur]| > MaxJson then (NoMem, "")
    else if f.getData != Ok then (f.getData, "")
    else (Ok, blobs[KeyCur])
  }

  /** config_store_load, given what cJSON_ParseWithLength makes of the stored text. */
  function Loaded(blobs: Blobs, f: Faults, parsed: Option<Json>): (Err, Json)
  {
    var (err, _) := Serialized(blobs, f);
    if err != Ok then (err, EmptyJson)
    else
      var o := if parsed.None? then EmptyJson else parsed.value;
      if !o.isObject then (InvalidArg, EmptyJson) else (Ok, o)
  }

  /** The error config_store_save returns. */
  function SaveError(blobs: Blobs, cfg: Option<Json>, f: Faults): Err
  {
    if cfg.None? || !cfg.value.isObject then InvalidArg
    else if cfg.value.printed.None? then NoMem
    else if |cfg.value.printed.value| > MaxJson then NoMem
    else if f.open != Ok then f.open
    else if f.setTemp != Ok then f.setTemp
    else if f.commitTemp != Ok then f.commitTemp
    else if f.readback != Ok then Fail
    else if f.setMain != Ok then f.setMain
    else f.commitMain
  }

  /** The blobs after config_store_save; a write takes effect when it is set. */
  function SavedBlobs(blobs: Blobs, cfg: Option<Json>, f: Faults): Blobs
  {
    if cfg.None? || !cfg.value.isObject || cfg.value.printed.None? then blobs
    else
      var text := cfg.value.printed.value;
      if |text| > MaxJson || f.open != Ok then blobs
      else if f.setTemp != Ok then blobs
      else if f.commitTemp != Ok || f.readback != Ok then blobs[KeyNew := text]
      else if f.setMain != Ok then blobs[KeyNew := text]
      else if f.erase != Ok then blobs[KeyNew := text][KeyCur := text]
      else (blobs[KeyNew := text][KeyCur := text]) - {KeyNew}
  }

  // ---------------------------------------------------------------------
  // Properties
  // ---------------------------------------------------------------------

  /** Nothing stored reads back as "{}"; a stored text within bounds reads back unchanged; a larger one is refused. */
  lemma SerializedCases(blobs: Blobs)
    ensures KeyCur !in blobs ==> Serialized(blobs, NoFaults) == (Ok, EmptyObject)
    ensures KeyCur in blobs && |blobs[KeyCur]| <= MaxJson ==> Serialized(blobs, NoFaults) == (Ok, blobs[KeyCur])
    ensures KeyCur in blobs && |blobs[KeyCur]| > MaxJson ==> Serialized(blobs, NoFaults).0 == NoMem
    ensures Serialized(blobs, NoFaults).0 == Ok ==> |Serialized(blobs, NoFaults).1| <= MaxJson
  {
  }

  /** Unparsable text loads as the empty object; a parsed non-object is refused with INVALID_ARG. */
  lemma LoadCases(blobs: Blobs, f: Faults, parsed: Option<Json>)
    requires Serialized(blobs, f).0 == Ok
    ensures parsed.None? ==> Loaded(blobs, f, parsed) == (Ok, EmptyJson)
    ensures parsed.Some? && !parsed.value.isObject ==> Loaded(blobs, f, parsed).0 == InvalidArg
    ensures parsed.Some? && parsed.value.isObject ==> Loaded(blobs, f, parsed) == (Ok, parsed.value)
    ensures Loaded(blobs, f, parsed).0 == Ok ==> Loaded(blobs, f, parsed).1.isObject
  {
  }

  /** A configuration that is not an object, cannot be printed or prints too long is refused before any store call. */
  lemma RejectedBeforeAnyWrite(blobs: Blobs, cfg: Option<Json>, f: Faults)
    requires cfg.None? || !cfg.value.isObject || cfg.value.printed.None? || |cfg.value.printed.value| > MaxJson
    ensures SavedBlobs(blobs, cfg, f) == blobs
    ensures SaveError(blobs, cfg, f) == (if cfg.None? || !cfg.value.isObject then InvalidArg else NoMem)
  {
  }

  /** A failure up to and including the temporary key's readback leaves the main key as it was and reports an error. */
  lemma TempFailureKeepsMain(blobs: Blobs, cfg: Option<Json>, f: Faults)
    requires f.open != Ok || f.setTemp != Ok || f.commitTemp != Ok || f.readback != Ok
    ensures SaveError(blobs, cfg, f) != Ok
    ensures KeyCur in SavedBlobs(blobs, cfg, f) <==> KeyCur in blobs
    ensures KeyCur in blobs ==> SavedBlobs(blobs, cfg, f)[KeyCur] == blobs[KeyCur]
  {
  }

  /** A save that reports Ok leaves its text under the main key, and the temporary key gone unless erasing it failed. */
  lemma SuccessStoresText(blobs: Blobs, cfg: Option<Json>, f: Faults)
    requires SaveError(blobs, cfg, f) == Ok
    ensures cfg.Some? && cfg.value.isObject && cfg.value.printed.Some?
    ensures KeyCur in SavedBlobs(blobs, cfg, f) && SavedBlobs(blobs, cfg, f)[KeyCur] == cfg.value.printed.value
    ensures f.erase == Ok ==> KeyNew !in SavedBlobs(blobs, cfg, f)
    ensures forall k :: k in blobs && k != KeyCur && k != KeyNew ==>
      k in SavedBlobs(blobs, cfg, f) && SavedBlobs(blobs, cfg, f)[k] == blobs[k]
  {
  }

  /** Save then read: the text a successful save wrote is what a fault-free read hands back. */
  lemma SaveThenReadRoundTrip(blobs: Blobs, cfg: Option<Json>, f: Faults)
    requires SaveError(blobs, cfg, f) == Ok
    ensures Serialized(SavedBlobs(blobs, cfg, f), NoFaults) == (Ok, cfg.value.printed.value)
  {
    SuccessStoresText(blobs, cfg, f);
  }

  /** Save then load: an object whose printed text parses back to itself is what the next load returns. */
  lemma SaveThenLoadRoundTrip(blobs: Blobs, cfg: Json, f: Faults)
    requires SaveError(blobs, Some(cfg), f) == Ok
    ensures Loaded(SavedBlobs(blobs, Some(cfg), f), NoFaults, Some(cfg)) == (Ok, cfg)
  {
    SaveThenReadRoundTrip(blobs, Some(cfg), f);
  }

  // ---------------------------------------------------------------------
  // The store and the operations over it
  // ---------------------------------------------------------------------

  /** The configuration namespace of the key/value store. */
  class Store {
    var blobs: Blobs

    constructor (initial: Blobs)
      ensures blobs == initial
    {
      blobs := initial;
    }

    /** config_store_get_serialized: a NUL-terminated copy of the stored text and its length. */
    method GetSerialized(f: Faults) returns (err: Err, out: array<char>, outLen: nat)
      ensures err == Serialized(blobs, f).0
      ensures err == Ok ==> outLen == |Serialized(blobs, f).1| && out.Length == outLen + 1
      ensures err == Ok ==> out[..outLen] == Serialized(blobs, f).1 && out[outLen] == '\0'
      ensures fresh(out)
    {
      out := new char[0];
      outLen := 0;
      if f.open != Ok {
        return f.open, out, outLen;
      }
      if KeyCur !in blobs {
        outLen := |EmptyObject|;
        out := new char[outLen + 1];
        out[0], out[1], out[2] := '{', '}', '\0';
        return Ok, out, outLen;
      }
      if f.getSize != Ok {
        return f.getSize, out, outLen;
      }
      var stored := blobs[KeyCur];
      var sz := |stored|;
      if sz > MaxJson {
        return NoMem, out, outLen;
      }
      out := new char[sz + 1];
      if f.getData != Ok {
        return f.getData, out, outLen;
      }
      forall i | 0 <= i < sz {
        out[i] := stored[i];
      }
      out[sz] := '\0';
      outLen := sz;
      err := Ok;
    }

    /** config_store_load; parsed is what the JSON parser makes of the stored text. */
    method Load(f: Faults, parsed: Option<Json>) returns (err: Err, cfg: Json)
      ensures (err, cfg) == Loaded(blobs, f, parsed)
    {
      var e, text, len := GetSerialized(f);
      if e != Ok {
        return e, EmptyJson;
      }
      var o := if parsed.None? then EmptyJson else parsed.value;
      if !o.isObject {
        return InvalidArg, EmptyJson;
      }
      return Ok, o;
    }

    /** config_store_save: the temporary key, its commit and readback, then the main key. */
    method Save(cfg: Option<Json>, f: Faults) returns (err: Err)
      modifies this
      ensures err == SaveError(old(blobs), cfg, f)
      ensures blobs == SavedBlobs(old(blobs), cfg, f)
    {
      if cfg.None? || !cfg.value.isObject {
        return InvalidArg;
      }
      if cfg.value.printed.None? {
        return NoMem;
      }
      var serialized := cfg.value.printed.value;
      var len := |serialized|;
      if len > MaxJson {
        return NoMem;
      }
      if f.open != Ok {
        return f.open;
      }
      if f.setTemp != Ok {
        return f.setTemp;
      }
      blobs := blobs[KeyNew := serialized];
      if f.commitTemp != Ok {
        return f.commitTemp;
      }
      var verifySize := if f.readback == Ok && KeyNew in blobs then |blobs[KeyNew]| else 0;
      if f.readback != Ok || verifySize != len {
        return Fail;
      }
      if f.setMain != Ok {
        return f.setMain;
      }
      blobs := blobs[KeyCur := serialized];
      if f.erase == Ok {
        blobs := blobs - {KeyNew};
      }
      err := f.commitMain;
    }
  }
}
