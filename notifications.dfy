/**
 * The notification handler: how one notification from the state or the
 * debug characteristic is decoded and classified into the event the client
 * reports. The wall-clock timestamp and the printing are left out; the
 * event carries every value the printed text is made of.
 */
module Notifications {
  import opened Options
  import opened Text
  import opened Json
  import opened Endpoints
  import Utf8

  /** `bytes.hex()`: two lower-case hexadecimal digits per byte. */
  function Hex(data: seq<Utf8.byte>): (r: string)
    ensures |r| == 2 * |data|
  {
    if data == [] then []
    else [HexDigit(data[0] as nat / 16), HexDigit(data[0] as nat % 16)] + Hex(data[1..])
  }

  /** Reads hexadecimal text back to the bytes it spells, two digits per byte. */
  function Unhex(h: string): Option<seq<Utf8.byte>>
    decreases |h|
  {
    if h == [] then Some([])
    else if |h| == 1 then None
    else
      var hi, lo, rest := HexValue(h[0]), HexValue(h[1]), Unhex(h[2..]);
      if hi.Some? && lo.Some? && rest.Some? then Some([(hi.value * 16 + lo.value) as Utf8.byte] + rest.value)
      else None
  }

  /** Why a notification ended in the handler's generic error report. */
  datatype ErrorCause =
    /** `data.decode('utf-8')` raised `UnicodeDecodeError`. */
    | InvalidUtf8
    /** The document is not an object, so `message.get` raised `AttributeError`. */
    | NotAnObject
    /** The `level` is a list or an object, so the symbol lookup raised `TypeError`. */
    | UnhashableLevel

  /** What the handler reports for one notification. */
  datatype Event =
    /** A `stateUpdate` document: the four fields, each with its default when absent. */
    | StateUpdate(track: JsonValue, artist: JsonValue, isPlaying: JsonValue, volumePercent: JsonValue)
    /** Any other document on the state characteristic, shown whole. */
    | StateDocument(doc: JsonValue)
    /** A debug record; `data` is shown only when present and truthy. */
    | DebugLog(symbol: string, level: JsonValue, logType: JsonValue, message: JsonValue, data: Option<JsonValue>)
    /** Text that is not JSON: the notification's bytes in hexadecimal. */
    | RawData(hex: string)
    | HandlerError(cause: ErrorCause)
    /** A document on a characteristic the handler has no branch for: nothing is reported. */
    | Ignored

  const ERROR_SYMBOL: string := "\U{274C}"
  const WARNING_SYMBOL: string := "\U{26A0}\U{FE0F}"
  const INFO_SYMBOL: string := "\U{2139}\U{FE0F}"
  const DEBUG_SYMBOL: string := "\U{1F527}"
  const VERBOSE_SYMBOL: string := "\U{1F4DD}"

  /** The level-to-symbol table of the debug branch. */
  const LEVEL_SYMBOLS: map<string, string> :=
    map["ERROR" := ERROR_SYMBOL, "WARNING" := WARNING_SYMBOL, "INFO" := INFO_SYMBOL,
        "DEBUG" := DEBUG_SYMBOL, "VERBOSE" := VERBOSE_SYMBOL]

  /** `level_symbols.get(level, "📝")`; `None` when the lookup raises because `level` is unhashable. */
  function LevelSymbol(level: JsonValue): (r: Option<string>)
    ensures r.None? <==> !Hashable(level)
    ensures r.Some? ==> r.value in LEVEL_SYMBOLS.Values
  {
    if !Hashable(level) then None
    else if level.JString? && level.s in LEVEL_SYMBOLS then Some(LEVEL_SYMBOLS[level.s])
    else
      assert LEVEL_SYMBOLS["VERBOSE"] == VERBOSE_SYMBOL;
      Some(VERBOSE_SYMBOL)
  }

  /** The state branch. */
  function StateEvent(message: JsonValue): Event {
    if !message.JObject? then HandlerError(NotAnObject)
    else
      var m := message.members;
      if Lookup(m, "type") == Some(JString("stateUpdate")) then
        StateUpdate(Get(m, "track", JString("Unknown")), Get(m, "artist", JString("Unknown")),
                    Get(m, "is_playing", JBool(false)), Get(m, "volume_percent", JInt(0)))
      else StateDocument(message)
  }

  /** The debug branch. */
  function DebugEvent(message: JsonValue): Event {
    if !message.JObject? then HandlerError(NotAnObject)
    else
      var m := message.members;
      var level := Get(m, "level", JString("INFO"));
      match LevelSymbol(level)
      case None => HandlerError(UnhashableLevel)
      case Some(symbol) =>
        var data := Lookup(m, "data");
        DebugLog(symbol, level, Get(m, "type", JString("LOG")), Get(m, "message", JString("")),
                 if data.Some? && Truthy(data.value) then data else None)
  }

  /**
   * The handler created for characteristic `charUuid`, applied to one
   * notification. `loads` is `json.loads`, with `None` for `JSONDecodeError`.
   */
  function Handle(charUuid: string, data: seq<Utf8.byte>, loads: string -> Option<JsonValue>): Event {
    match Utf8.Decode(data)
    case None => HandlerError(InvalidUtf8)
    case Some(text) =>
      match loads(text)
      case None => RawData(Hex(data))
      case Some(message) =>
        if charUuid == STATE_CHAR_UUID then StateEvent(message)
        else if charUuid == DEBUG_CHAR_UUID then DebugEvent(message)
        else Ignored
  }

  /**
   * `loads` reads every flat object the concrete parser reads, and reads it
   * the same way, as long as its integers are within the digit limit (past
   * it `json.loads` raises `ValueError`).
   */
  ghost predicate ReadsFlatObjects(loads: string -> Option<JsonValue>) {
    forall text :: ParseObject(text).Some? && ParseObject(text).value.JObject?
                   && IntsWithinLimit(ParseObject(text).value.members)
                   ==> loads(text) == ParseObject(text)
  }

  // ---------------------------------------------------------------------
  // Properties
  // ---------------------------------------------------------------------

  /** The raw fallback loses nothing: its text reads back to the notification's bytes. */
  lemma {:induction false} UnhexHex(data: seq<Utf8.byte>)
    ensures Unhex(Hex(data)) == Some(data)
  {
    if data != [] {
      var hi, lo := ByteHalves(data[0]);
      var h := Hex(data);
      assert h[0] == HexDigit(hi) && h[1] == HexDigit(lo) && h[2..] == Hex(data[1..]);
      HexDigitValue(hi);
      HexDigitValue(lo);
      UnhexHex(data[1..]);
      UnhexStep(h, hi, lo, data[1..]);
      assert [data[0]] + data[1..] == data;
    }
  }

  /** The two hexadecimal digits of a byte. */
  lemma ByteHalves(x: Utf8.byte) returns (hi: nat, lo: nat)
    ensures hi == x as nat / 16 && lo == x as nat % 16
    ensures hi < 16 && lo < 16 && hi * 16 + lo == x as int
  {
    hi, lo := x as nat / 16, x as nat % 16;
  }

  /** Two digits, then text that reads back: the byte they spell, then the rest. */
  lemma UnhexStep(h: string, hi: nat, lo: nat, rest: seq<Utf8.byte>)
    requires |h| >= 2 && HexValue(h[0]) == Some(hi) && HexValue(h[1]) == Some(lo) && hi * 16 + lo < 256
    requires Unhex(h[2..]) == Some(rest)
    ensures Unhex(h) == Some([(hi * 16 + lo) as Utf8.byte] + rest)
  {
  }

  /** Bytes that are not UTF-8 end in the generic error, whatever the characteristic and `loads`. */
  lemma InvalidUtf8Exactly(charUuid: string, data: seq<Utf8.byte>, loads: string -> Option<JsonValue>)
    ensures Handle(charUuid, data, loads) == HandlerError(InvalidUtf8) <==> Utf8.Decode(data).None?
  {
  }

  /**
   * The raw fallback happens exactly when the bytes are UTF-8 but not JSON,
   * and then shows exactly those bytes.
   */
  lemma RawDataExactly(charUuid: string, data: seq<Utf8.byte>, loads: string -> Option<JsonValue>)
    ensures Handle(charUuid, data, loads).RawData?
            <==> Utf8.Decode(data).Some? && loads(Utf8.Decode(data).value).None?
    ensures Handle(charUuid, data, loads).RawData? ==> Unhex(Handle(charUuid, data, loads).hex) == Some(data)
  {
    UnhexHex(data);
  }

  /** A document that is not an object fails on the state and debug characteristics, and only there. */
  lemma NotAnObjectExactly(charUuid: string, data: seq<Utf8.byte>, loads: string -> Option<JsonValue>)
    ensures Handle(charUuid, data, loads) == HandlerError(NotAnObject)
            <==> && Utf8.Decode(data).Some?
                 && loads(Utf8.Decode(data).value).Some?
                 && !loads(Utf8.Decode(data).value).value.JObject?
                 && (charUuid == STATE_CHAR_UUID || charUuid == DEBUG_CHAR_UUID)
  {
    CharUuidsDistinct(StateSource, DebugSource);
  }

  /** Nothing is reported exactly for a JSON document on some other characteristic. */
  lemma IgnoredExactly(charUuid: string, data: seq<Utf8.byte>, loads: string -> Option<JsonValue>)
    ensures Handle(charUuid, data, loads) == Ignored
            <==> && Utf8.Decode(data).Some?
                 && loads(Utf8.Decode(data).value).Some?
                 && charUuid != STATE_CHAR_UUID && charUuid != DEBUG_CHAR_UUID
  {
  }

  /** State events come only from the state characteristic, debug records only from the debug one. */
  lemma EventSources(charUuid: string, data: seq<Utf8.byte>, loads: string -> Option<JsonValue>)
    ensures Handle(charUuid, data, loads).StateUpdate? ==> charUuid == STATE_CHAR_UUID
    ensures Handle(charUuid, data, loads).StateDocument? ==> charUuid == STATE_CHAR_UUID
    ensures Handle(charUuid, data, loads).DebugLog? ==> charUuid == DEBUG_CHAR_UUID
    ensures Handle(charUuid, data, loads) == HandlerError(UnhashableLevel) ==> charUuid == DEBUG_CHAR_UUID
  {
    CharUuidsDistinct(StateSource, DebugSource);
  }

  /** A state object is a `stateUpdate` exactly when its last `type` is that string; any other object is shown whole. */
  lemma StateUpdateExactly(members: seq<Member>)
    ensures StateEvent(JObject(members)).StateUpdate? <==> Lookup(members, "type") == Some(JString("stateUpdate"))
    ensures !StateEvent(JObject(members)).StateUpdate? ==> StateEvent(JObject(members)) == StateDocument(JObject(members))
  {
  }

  /** A present field is reported as it is, even `null` or `false`; only an absent one takes the default. */
  lemma StateFields(members: seq<Member>)
    requires Lookup(members, "type") == Some(JString("stateUpdate"))
    ensures var e := StateEvent(JObject(members));
            && e.track == (if Lookup(members, "track").Some? then Lookup(members, "track").value else JString("Unknown"))
            && e.artist == (if Lookup(members, "artist").Some? then Lookup(members, "artist").value else JString("Unknown"))
            && e.isPlaying == (if Lookup(members, "is_playing").Some? then Lookup(members, "is_playing").value else JBool(false))
            && e.volumePercent == (if Lookup(members, "volume_percent").Some? then Lookup(members, "volume_percent").value else JInt(0))
  {
  }

  /** The symbol is the table's entry for a known level name and the memo symbol for every other hashable level. */
  lemma LevelSymbolTable(level: JsonValue)
    requires Hashable(level)
    ensures level.JString? && level.s in LEVEL_SYMBOLS ==> LevelSymbol(level) == Some(LEVEL_SYMBOLS[level.s])
    ensures !(level.JString? && level.s in LEVEL_SYMBOLS) ==> LevelSymbol(level) == Some(VERBOSE_SYMBOL)
  {
  }

  /** A record without `level` is shown as INFO; one whose `level` is `null` gets the fallback symbol, not INFO's. */
  lemma MissingAndNullLevel(members: seq<Member>)
    ensures Lookup(members, "level").None? ==> DebugEvent(JObject(members)).symbol == INFO_SYMBOL
    ensures Lookup(members, "level") == Some(JNull) ==> DebugEvent(JObject(members)).symbol == VERBOSE_SYMBOL
  {
  }

  /** A debug record carries each of `level`, `type` and `message` as present, and `INFO`, `LOG` and the empty text for absent ones. */
  lemma DebugFields(members: seq<Member>)
    requires Hashable(Get(members, "level", JString("INFO")))
    ensures var e := DebugEvent(JObject(members));
            && e.DebugLog?
            && e.level == (if Lookup(members, "level").Some? then Lookup(members, "level").value else JString("INFO"))
            && e.logType == (if Lookup(members, "type").Some? then Lookup(members, "type").value else JString("LOG"))
            && e.message == (if Lookup(members, "message").Some? then Lookup(members, "message").value else JString(""))
            && e.symbol == LevelSymbol(e.level).value
  {
  }

  /** The debug record's `data` is shown exactly when the key is present with a truthy value, and is that value. */
  lemma DebugDataShown(members: seq<Member>)
    requires Hashable(Get(members, "level", JString("INFO")))
    ensures DebugEvent(JObject(members)).DebugLog?
    ensures DebugEvent(JObject(members)).data.Some?
            <==> Lookup(members, "data").Some? && Truthy(Lookup(members, "data").value)
    ensures DebugEvent(JObject(members)).data.Some? ==> DebugEvent(JObject(members)).data == Lookup(members, "data")
  {
  }

  /** A list or object as `level` ends in the generic error. */
  lemma UnhashableLevelExactly(members: seq<Member>)
    ensures DebugEvent(JObject(members)) == HandlerError(UnhashableLevel)
            <==> !Hashable(Get(members, "level", JString("INFO")))
  {
  }

  /**
   * The bytes DE AD BE EF are not UTF-8 (DE AD is one two-byte character,
   * then BE is a continuation byte with nothing to continue), so they end in
   * the generic error rather than the raw fallback, on every characteristic.
   */
  lemma DeadBeef(charUuid: string, loads: string -> Option<JsonValue>)
    ensures Handle(charUuid, [0xDE, 0xAD, 0xBE, 0xEF], loads) == HandlerError(InvalidUtf8)
  {
    var b: seq<Utf8.byte> := [0xDE, 0xAD, 0xBE, 0xEF];
    assert b[2..] == [0xBE, 0xEF];
    Utf8.StrayContinuation(b[2..]);
  }

  /**
   * A device that sends the UTF-8 bytes of `json.dumps` of a flat
   * `stateUpdate` object, with no integer past the digit limit, has it
   * reported field by field, whatever else the object holds.
   */
  lemma DumpedStateUpdate(members: seq<Member>, loads: string -> Option<JsonValue>)
    requires IsFlat(members) && IntsWithinLimit(members) && ReadsFlatObjects(loads)
    requires Lookup(members, "type") == Some(JString("stateUpdate"))
    ensures Handle(STATE_CHAR_UUID, Utf8.Encode(Dumps(JObject(members))), loads)
            == StateUpdate(Get(members, "track", JString("Unknown")), Get(members, "artist", JString("Unknown")),
                           Get(members, "is_playing", JBool(false)), Get(members, "volume_percent", JInt(0)))
  {
    var text := Dumps(JObject(members));
    Utf8.DecodeEncode(text);
    DumpsParses(members);
    assert loads(text) == Some(JObject(members));
  }

  /** The same for a debug record. */
  lemma DumpedDebugRecord(members: seq<Member>, loads: string -> Option<JsonValue>)
    requires IsFlat(members) && IntsWithinLimit(members) && ReadsFlatObjects(loads)
    ensures Handle(DEBUG_CHAR_UUID, Utf8.Encode(Dumps(JObject(members))), loads) == DebugEvent(JObject(members))
    ensures DebugEvent(JObject(members)).DebugLog?
  {
    var text := Dumps(JObject(members));
    Utf8.DecodeEncode(text);
    DumpsParses(members);
    assert loads(text) == Some(JObject(members));
    CharUuidsDistinct(StateSource, DebugSource);
    FlatLevelHashable(members);
  }

  /** In a flat object every value, and so the `level`, is hashable. */
  lemma FlatLevelHashable(members: seq<Member>)
    requires IsFlat(members)
    ensures Hashable(Get(members, "level", JString("INFO")))
  {
    var l := Lookup(members, "level");
    if l.Some? {
      var i :| 0 <= i < |members| && members[i] == ("level", l.value)
               && forall j :: i < j < |members| ==> members[j].0 != "level";
      assert IsScalar(members[i].1);
    }
  }
}
