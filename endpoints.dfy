/**
 * The protocol endpoint map: the Nordic-UART-compatible service and its
 * four characteristics, one per protocol role.
 */
module Endpoints {
  import opened Options

  const SERVICE_UUID: string := "6E400001-B5A3-F393-E0A9-E50E24DCCA9E"
  /** Written to: operator commands. */
  const COMMAND_CHAR_UUID: string := "6E400002-B5A3-F393-E0A9-E50E24DCCA9E"
  /** Notifies: playback state. */
  const STATE_CHAR_UUID: string := "6E400003-B5A3-F393-E0A9-E50E24DCCA9E"
  /** Notifies: debug log records. */
  const DEBUG_CHAR_UUID: string := "6E400004-B5A3-F393-E0A9-E50E24DCCA9E"
  /** Read once: the capability document. */
  const INFO_CHAR_UUID: string := "6E400005-B5A3-F393-E0A9-E50E24DCCA9E"

  datatype Role = CommandSink | StateSource | DebugSource | InfoSource

  function CharUuid(role: Role): string {
    match role
    case CommandSink => COMMAND_CHAR_UUID
    case StateSource => STATE_CHAR_UUID
    case DebugSource => DEBUG_CHAR_UUID
    case InfoSource => INFO_CHAR_UUID
  }

  /** The role a characteristic identifier plays, if any. */
  function RoleOf(uuid: string): (r: Option<Role>)
    ensures r.Some? ==> CharUuid(r.value) == uuid
  {
    if uuid == COMMAND_CHAR_UUID then Some(CommandSink)
    else if uuid == STATE_CHAR_UUID then Some(StateSource)
    else if uuid == DEBUG_CHAR_UUID then Some(DebugSource)
    else if uuid == INFO_CHAR_UUID then Some(InfoSource)
    else None
  }

  /** No two roles share a characteristic, and none of them is the service identifier. */
  lemma {:induction false} CharUuidsDistinct(a: Role, b: Role)
    ensures a != b ==> CharUuid(a) != CharUuid(b)
    ensures CharUuid(a) != SERVICE_UUID
  {
    // The five identifiers differ in their eighth character.
    assert SERVICE_UUID[7] == '1' && COMMAND_CHAR_UUID[7] == '2' && STATE_CHAR_UUID[7] == '3';
    assert DEBUG_CHAR_UUID[7] == '4' && INFO_CHAR_UUID[7] == '5';
  }

  /** The map is a bijection between roles and the four characteristic identifiers. */
  lemma RoleOfCharUuid(role: Role)
    ensures RoleOf(CharUuid(role)) == Some(role)
  {
    CharUuidsDistinct(role, CommandSink);
    CharUuidsDistinct(role, StateSource);
    CharUuidsDistinct(role, DebugSource);
  }
}
