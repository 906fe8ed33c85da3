/**
 * The test client as a whole: the connection it holds, the GATT
 * operations it issues over a session, and the interactive command loop.
 * The radio and the terminal are parameters: the devices a scan reports,
 * whether the peripheral accepts the connection and the subscriptions, the
 * value the information characteristic reads as, and the operator's input.
 */
module Session {
  import opened Options
  import opened Json
  import opened Endpoints
  import opened Discovery
  import opened Commands
  import Utf8

  /** One GATT operation the client issues. */
  datatype Gatt =
    | ConnectTo(address: string)
    | ReadChar(uuid: string)
    | WriteChar(uuid: string, value: seq<Utf8.byte>)
    | StartNotify(uuid: string)
    | DisconnectLink

  /** One event at the operator's terminal; the end of the sequence is the end of input. */
  datatype Input =
    | Line(text: string)
    /** Ctrl-C while the loop waits for a line. */
    | Interrupt

  /** The capability document `read_device_info` shows, or `None` when it reports a failure. */
  function DeviceInfo(reply: Option<seq<Utf8.byte>>, loads: string -> Option<JsonValue>): Option<JsonValue> {
    if reply.None? then None
    else
      match Utf8.Decode(reply.value)
      case None => None
      case Some(text) => loads(text)
  }

  /** The operations `subscribe_notifications` issues: the debug subscription is tried only after the state one succeeded. */
  function SubscribeActions(stateAccepted: bool): seq<Gatt> {
    [StartNotify(STATE_CHAR_UUID)] + (if stateAccepted then [StartNotify(DEBUG_CHAR_UUID)] else [])
  }

  /** The operations one interpreted line causes; a command `json.dumps` cannot write is reported and not sent. */
  function OutcomeActions(o: Outcome): seq<Gatt> {
    match o
    case Send(c) => if Encodable(c) then [WriteChar(COMMAND_CHAR_UUID, Payload(c))] else []
    case ReadInfo => [ReadChar(INFO_CHAR_UUID)]
    case _ => []
  }

  /** What the loop does with one input event: stop, or act on the outcome and go on. */
  datatype Turn = Stop | Go(outcome: Outcome)

  /** Ctrl-C and `quit` end the loop; every other line is acted on. */
  function TurnOf(event: Input): (t: Turn)
    ensures t.Go? ==> t.outcome != Quit
  {
    if event.Interrupt? then Stop
    else
      var o := Interpret(event.text);
      if o == Quit then Stop else Go(o)
  }

  /** The turns of a whole input, one per event. */
  function Turns(input: seq<Input>): (t: seq<Turn>)
    ensures |t| == |input|
  {
    if input == [] then [] else [TurnOf(input[0])] + Turns(input[1..])
  }

  /** The operations a run of turns issues, up to the first stop. */
  function TurnActions(turns: seq<Turn>): seq<Gatt>
    decreases |turns|
  {
    if turns == [] || turns[0].Stop? then []
    else OutcomeActions(turns[0].outcome) + TurnActions(turns[1..])
  }

  /** The operations the interactive loop issues for the operator's input, up to `quit`, Ctrl-C or the end of input. */
  function LoopActions(input: seq<Input>): seq<Gatt> {
    TurnActions(Turns(input))
  }

  /** The operations of a whole `run`. */
  function SessionActions(scan: seq<Device>, accepted: bool, stateAccepted: bool, input: seq<Input>): seq<Gatt> {
    match FirstMatch(scan)
    case None => []
    case Some(found) =>
      [ConnectTo(found.device.address)]
      + if !accepted then []
        else [ReadChar(INFO_CHAR_UUID)] + SubscribeActions(stateAccepted) + LoopActions(input) + [DisconnectLink]
  }

  /** Regroups the operations of a whole session the way `SessionActions` nests them. */
  lemma SessionRegroup(o: seq<Gatt>, a: seq<Gatt>, b: seq<Gatt>, c: seq<Gatt>, d: seq<Gatt>, e: seq<Gatt>)
    ensures o + a + b + c + d + e == o + (a + (b + c + d + e))
  {
  }

  lemma {:induction false} TurnAt(input: seq<Input>, k: nat)
    requires k < |input|
    ensures Turns(input)[k] == TurnOf(input[k])
  {
    if k > 0 {
      TurnAt(input[1..], k - 1);
    }
  }

  /** One turn that goes on contributes its operations, followed by those of the turns after it. */
  lemma TurnStep(turns: seq<Turn>, i: nat)
    requires i < |turns| && turns[i].Go?
    ensures TurnActions(turns[i..]) == OutcomeActions(turns[i].outcome) + TurnActions(turns[i + 1..])
  {
    var s := turns[i..];
    assert s[0] == turns[i];
    assert s[1..] == turns[i + 1..];
  }

  /** The operations issued by one turn, followed by the rest of the loop, are the loop from that turn on. */
  lemma IssuedStep(before: seq<Gatt>, after: seq<Gatt>, issuing: bool, turns: seq<Turn>, i: nat)
    requires i < |turns| && turns[i].Go?
    requires after == before + if issuing then OutcomeActions(turns[i].outcome) else []
    ensures after + (if issuing then TurnActions(turns[i + 1..]) else [])
            == before + (if issuing then TurnActions(turns[i..]) else [])
  {
    if issuing {
      TurnStep(turns, i);
      AppendAssoc(before, OutcomeActions(turns[i].outcome), TurnActions(turns[i + 1..]));
    }
  }

  lemma AppendAssoc(a: seq<Gatt>, b: seq<Gatt>, c: seq<Gatt>)
    ensures (a + b) + c == a + (b + c)
  {
  }

  /** The loop issues nothing once it stops. */
  lemma TurnsEnd(turns: seq<Turn>, i: nat)
    requires i <= |turns| && (i == |turns| || turns[i].Stop?)
    ensures TurnActions(turns[i..]) == []
  {
    if i < |turns| {
      assert turns[i..][0] == turns[i];
    } else {
      assert turns[i..] == [];
    }
  }

  // ---------------------------------------------------------------------
  // What the loop and the session issue
  // ---------------------------------------------------------------------

  /** The only operations the interactive loop issues: writes to the command characteristic and reads of the information one. */
  predicate LoopOperation(g: Gatt) {
    (g.WriteChar? && g.uuid == COMMAND_CHAR_UUID) || g == ReadChar(INFO_CHAR_UUID)
  }

  lemma {:induction false} LoopOperationsOnly(turns: seq<Turn>)
    ensures forall k :: 0 <= k < |TurnActions(turns)| ==> LoopOperation(TurnActions(turns)[k])
    decreases |turns|
  {
    if turns != [] && turns[0].Go? {
      LoopOperationsOnly(turns[1..]);
      LoopOperationsConcat(OutcomeActions(turns[0].outcome), TurnActions(turns[1..]));
    }
  }

  lemma LoopOperationsConcat(a: seq<Gatt>, b: seq<Gatt>)
    requires forall k :: 0 <= k < |a| ==> LoopOperation(a[k])
    requires forall k :: 0 <= k < |b| ==> LoopOperation(b[k])
    ensures forall k :: 0 <= k < |a + b| ==> LoopOperation((a + b)[k])
  {
    forall k | 0 <= k < |a + b| ensures LoopOperation((a + b)[k]) {
      if k >= |a| {
        assert (a + b)[k] == b[k - |a|];
      }
    }
  }

  /** Once the loop stops, nothing that follows is read: the turns after a stop issue nothing. */
  lemma {:induction false} StopIgnoresRest(turns: seq<Turn>, more: seq<Turn>)
    requires exists k :: 0 <= k < |turns| && turns[k].Stop?
    ensures TurnActions(turns + more) == TurnActions(turns)
    decreases |turns|
  {
    var joined := turns + more;
    assert joined[0] == turns[0];
    if turns[0].Go? {
      var k :| 0 <= k < |turns| && turns[k].Stop?;
      assert turns[1..][k - 1] == turns[k];
      assert joined[1..] == turns[1..] + more;
      StopIgnoresRest(turns[1..], more);
    }
  }

  /** The turn of the first event decides how the loop begins. */
  lemma FirstTurn(e: Input, rest: seq<Input>)
    ensures Turns([e] + rest) == [TurnOf(e)] + Turns(rest)
  {
    assert ([e] + rest)[1..] == rest;
  }

  /** A turn that goes on issues its operations, then those of the turns after it. */
  lemma GoStep(t: Turn, rest: seq<Turn>)
    requires t.Go?
    ensures TurnActions([t] + rest) == OutcomeActions(t.outcome) + TurnActions(rest)
  {
    assert ([t] + rest)[1..] == rest;
  }

  /** A line other than `quit` is acted on. */
  lemma LineGoesOn(text: string, rest: seq<Input>)
    requires Interpret(text) != Quit
    ensures LoopActions([Line(text)] + rest) == OutcomeActions(Interpret(text)) + LoopActions(rest)
  {
    FirstTurn(Line(text), rest);
    GoStep(TurnOf(Line(text)), Turns(rest));
  }

  /** `quit` (in any case, with any padding) and Ctrl-C end the loop before anything else is issued. */
  lemma StopEndsLoop(e: Input, rest: seq<Input>)
    requires e.Interrupt? || Interpret(e.text) == Quit
    ensures LoopActions([e] + rest) == []
  {
    FirstTurn(e, rest);
  }

  /** A line that names a command writes exactly that command's payload, then the loop goes on. */
  lemma CommandLineWrites(text: string, c: Command, rest: seq<Input>)
    requires Interpret(text) == Send(c)
    ensures LoopActions([Line(text)] + rest) == [WriteChar(COMMAND_CHAR_UUID, Payload(c))] + LoopActions(rest)
  {
    LineGoesOn(text, rest);
    DispatchedEncodable(Normalize(text), c);
  }

  /** An unknown command or a bad argument is reported and issues nothing; the loop goes on with the next line. */
  lemma SilentLineSkipped(text: string, rest: seq<Input>)
    requires Interpret(text) == Unknown || Interpret(text) == BadArgument
    ensures LoopActions([Line(text)] + rest) == LoopActions(rest)
  {
    LineGoesOn(text, rest);
    SilentOutcome(Interpret(text));
  }

  lemma SilentOutcome(o: Outcome)
    requires o == Unknown || o == BadArgument
    ensures OutcomeActions(o) == []
  {
  }

  /** Neither connects nor disconnects. */
  predicate Inner(g: Gatt) {
    !g.ConnectTo? && !g.DisconnectLink?
  }

  lemma InnerConcat(a: seq<Gatt>, b: seq<Gatt>)
    requires forall k :: 0 <= k < |a| ==> Inner(a[k])
    requires forall k :: 0 <= k < |b| ==> Inner(b[k])
    ensures forall k :: 0 <= k < |a + b| ==> Inner((a + b)[k])
  {
    forall k | 0 <= k < |a + b| ensures Inner((a + b)[k]) {
      if k >= |a| {
        assert (a + b)[k] == b[k - |a|];
      }
    }
  }

  lemma LoopIsInner(input: seq<Input>)
    ensures forall k :: 0 <= k < |LoopActions(input)| ==> Inner(LoopActions(input)[k])
  {
    var loop := LoopActions(input);
    LoopOperationsOnly(Turns(input));
    forall k | 0 <= k < |loop| ensures Inner(loop[k]) {
      assert LoopOperation(loop[k]);
    }
  }

  /** Framed by one connection and one disconnect, with neither in between. */
  lemma Bracketed(first: Gatt, middle: seq<Gatt>, ops: seq<Gatt>)
    requires ops == [first] + middle + [DisconnectLink]
    requires forall k :: 0 <= k < |middle| ==> Inner(middle[k])
    ensures |ops| == |middle| + 2 && ops[0] == first && ops[|ops| - 1] == DisconnectLink
    ensures forall k :: 0 <= k < |middle| ==> ops[k + 1] == middle[k]
    ensures forall k :: 1 <= k < |ops| - 1 ==> Inner(ops[k])
  {
    forall k | 1 <= k < |ops| - 1 ensures Inner(ops[k]) {
      assert ops[k] == middle[k - 1];
    }
  }

  /**
   * A session with the device found and the link accepted opens with the
   * connection, the information read and the state subscription, closes
   * with the disconnect, and neither connects nor disconnects in between.
   */
  lemma SessionBracketed(scan: seq<Device>, stateAccepted: bool, input: seq<Input>)
    requires FirstMatch(scan).Some?
    ensures var ops := SessionActions(scan, true, stateAccepted, input);
            && |ops| >= 4
            && ops[0] == ConnectTo(FirstMatch(scan).value.device.address)
            && ops[1] == ReadChar(INFO_CHAR_UUID)
            && ops[2] == StartNotify(STATE_CHAR_UUID)
            && ops[|ops| - 1] == DisconnectLink
            && forall k :: 1 <= k < |ops| - 1 ==> Inner(ops[k])
  {
    var head := [ReadChar(INFO_CHAR_UUID)] + SubscribeActions(stateAccepted);
    var loop := LoopActions(input);
    AcceptedSession(scan, stateAccepted, input, head, loop);
    LoopIsInner(input);
    HeadIsInner(stateAccepted, head);
    InnerConcat(head, loop);
    var ops := SessionActions(scan, true, stateAccepted, input);
    Bracketed(ConnectTo(FirstMatch(scan).value.device.address), head + loop, ops);
  }

  lemma AcceptedSession(scan: seq<Device>, stateAccepted: bool, input: seq<Input>, head: seq<Gatt>, loop: seq<Gatt>)
    requires FirstMatch(scan).Some?
    requires head == [ReadChar(INFO_CHAR_UUID)] + SubscribeActions(stateAccepted)
    requires loop == LoopActions(input)
    ensures SessionActions(scan, true, stateAccepted, input)
            == [ConnectTo(FirstMatch(scan).value.device.address)] + (head + loop) + [DisconnectLink]
  {
  }

  lemma HeadIsInner(stateAccepted: bool, head: seq<Gatt>)
    requires head == [ReadChar(INFO_CHAR_UUID)] + SubscribeActions(stateAccepted)
    ensures |head| >= 2 && head[0] == ReadChar(INFO_CHAR_UUID) && head[1] == StartNotify(STATE_CHAR_UUID)
    ensures forall k :: 0 <= k < |head| ==> Inner(head[k])
  {
  }

  /** Each kind of operation goes to the one characteristic of its role: writes to the command one, reads to the information one, subscriptions to the state and debug ones. */
  predicate RightRole(g: Gatt) {
    && (g.WriteChar? ==> g.uuid == COMMAND_CHAR_UUID)
    && (g.ReadChar? ==> g.uuid == INFO_CHAR_UUID)
    && (g.StartNotify? ==> g.uuid == STATE_CHAR_UUID || g.uuid == DEBUG_CHAR_UUID)
  }

  lemma RightRoleConcat(a: seq<Gatt>, b: seq<Gatt>)
    requires forall k :: 0 <= k < |a| ==> RightRole(a[k])
    requires forall k :: 0 <= k < |b| ==> RightRole(b[k])
    ensures forall k :: 0 <= k < |a + b| ==> RightRole((a + b)[k])
  {
    forall k | 0 <= k < |a + b| ensures RightRole((a + b)[k]) {
      if k >= |a| {
        assert (a + b)[k] == b[k - |a|];
      }
    }
  }

  /** Over a whole session, on every path, every operation uses the characteristic of its role. */
  lemma SessionRoles(scan: seq<Device>, accepted: bool, stateAccepted: bool, input: seq<Input>)
    ensures var ops := SessionActions(scan, accepted, stateAccepted, input);
            forall k :: 0 <= k < |ops| ==> RightRole(ops[k])
  {
    if FirstMatch(scan).Some? && accepted {
      var head := [ReadChar(INFO_CHAR_UUID)] + SubscribeActions(stateAccepted);
      var loop := LoopActions(input);
      AcceptedSession(scan, stateAccepted, input, head, loop);
      LoopRoles(input);
      HeadRoles(stateAccepted, head);
      RightRoleConcat(head, loop);
      FramedRoles(ConnectTo(FirstMatch(scan).value.device.address), head + loop,
                  SessionActions(scan, accepted, stateAccepted, input));
    } else {
      SessionWithoutLink(scan, accepted, stateAccepted, input);
    }
  }

  lemma LoopRoles(input: seq<Input>)
    ensures forall k :: 0 <= k < |LoopActions(input)| ==> RightRole(LoopActions(input)[k])
  {
    var loop := LoopActions(input);
    LoopOperationsOnly(Turns(input));
    forall k | 0 <= k < |loop| ensures RightRole(loop[k]) {
      assert LoopOperation(loop[k]);
    }
  }

  lemma HeadRoles(stateAccepted: bool, head: seq<Gatt>)
    requires head == [ReadChar(INFO_CHAR_UUID)] + SubscribeActions(stateAccepted)
    ensures forall k :: 0 <= k < |head| ==> RightRole(head[k])
  {
  }

  lemma FramedRoles(first: Gatt, middle: seq<Gatt>, ops: seq<Gatt>)
    requires ops == [first] + middle + [DisconnectLink] && first.ConnectTo?
    requires forall k :: 0 <= k < |middle| ==> RightRole(middle[k])
    ensures forall k :: 0 <= k < |ops| ==> RightRole(ops[k])
  {
    forall k | 0 <= k < |ops| ensures RightRole(ops[k]) {
      if 0 < k < |ops| - 1 {
        assert ops[k] == middle[k - 1];
      }
    }
  }

  /** No device found: the session issues nothing. A refused link: only the connection attempt. */
  lemma SessionWithoutLink(scan: seq<Device>, accepted: bool, stateAccepted: bool, input: seq<Input>)
    requires FirstMatch(scan).None? || !accepted
    ensures SessionActions(scan, accepted, stateAccepted, input)
            == if FirstMatch(scan).None? then [] else [ConnectTo(FirstMatch(scan).value.device.address)]
  {
  }

  // ---------------------------------------------------------------------
  // The loop's control flow, and what the end of input does to it
  // ---------------------------------------------------------------------

  /**
   * One pass of `while True` as written, from the event at `pos`: a stop
   * leaves the loop (`None`), any other turn moves to the next event, and
   * at the end of input `input()` raises `EOFError`, which the generic
   * `except Exception` catches, so the loop prompts again at the same place.
   */
  function AsWrittenPass(turns: seq<Turn>, pos: nat): Option<nat> {
    if pos < |turns| then (if turns[pos].Stop? then None else Some(pos + 1))
    else Some(pos)
  }

  /** The loop as intended: the end of input ends it too, as Ctrl-C does. */
  function LoopPass(turns: seq<Turn>, pos: nat): Option<nat> {
    if pos < |turns| then (if turns[pos].Stop? then None else Some(pos + 1))
    else None
  }

  /**
   * `LoopPass` is the control flow of `TurnActions`: a pass that moves on
   * contributes that turn's operations, followed by those from the next
   * event; a pass that leaves contributes nothing more.
   */
  lemma LoopPassActions(turns: seq<Turn>, pos: nat)
    requires pos <= |turns|
    ensures LoopPass(turns, pos) == Some(pos + 1) ==>
              pos < |turns| && turns[pos].Go?
              && TurnActions(turns[pos..]) == OutcomeActions(turns[pos].outcome) + TurnActions(turns[pos + 1..])
    ensures LoopPass(turns, pos) == None <==> TurnActions(turns[pos..]) == [] && (pos == |turns| || turns[pos].Stop?)
  {
    if pos < |turns| && turns[pos].Go? {
      TurnStep(turns, pos);
    } else {
      TurnsEnd(turns, pos);
    }
  }

  /** Where the loop as written stands after `k` passes from `pos`, or `None` once it has left. */
  function AsWrittenAfter(turns: seq<Turn>, pos: nat, k: nat): Option<nat>
    decreases k
  {
    if k == 0 then Some(pos)
    else
      match AsWrittenPass(turns, pos)
      case None => None
      case Some(next) => AsWrittenAfter(turns, next, k - 1)
  }

  /** Where the intended loop stands after `k` passes from `pos`, or `None` once it has left. */
  function LoopAfter(turns: seq<Turn>, pos: nat, k: nat): Option<nat>
    decreases k
  {
    if k == 0 then Some(pos)
    else
      match LoopPass(turns, pos)
      case None => None
      case Some(next) => LoopAfter(turns, next, k - 1)
  }

  /**
   * Input that ends without `quit` or Ctrl-C: however many passes the loop
   * as written makes, it never leaves; it stays at the end of input, so
   * `run` never reaches its disconnect.
   */
  lemma {:induction false} AsWrittenNeverLeaves(turns: seq<Turn>, pos: nat, k: nat)
    requires pos <= |turns|
    requires forall j :: pos <= j < |turns| ==> turns[j].Go?
    ensures AsWrittenAfter(turns, pos, k) == Some(if pos + k < |turns| then pos + k else |turns|)
    decreases k
  {
    if k > 0 {
      if pos < |turns| {
        AsWrittenNeverLeaves(turns, pos + 1, k - 1);
      } else {
        AsWrittenNeverLeaves(turns, pos, k - 1);
      }
    }
  }

  /** The intended loop always leaves, within one pass more than the events left, and `run` goes on to disconnect. */
  lemma {:induction false} LoopLeaves(turns: seq<Turn>, pos: nat)
    requires pos <= |turns|
    ensures LoopAfter(turns, pos, |turns| - pos + 1) == None
    decreases |turns| - pos
  {
    if pos < |turns| && turns[pos].Go? {
      LoopLeaves(turns, pos + 1);
    }
  }


  /** The client object: the chosen device, its link, and the operations issued so far. */
  class NocturneTestClient {
    /** `self.device`. */
    var device: Option<Device>
    /** Whether `self.client` holds a client object. */
    var hasClient: bool
    /** `self.client.is_connected`. */
    var connected: bool
    /** The roles whose characteristic has a notification handler installed on the current client. */
    var subscriptions: seq<Role>
    /** Every GATT operation issued so far, in order. */
    var operations: seq<Gatt>

    constructor()
      ensures device == None && !hasClient && !connected
      ensures subscriptions == [] && operations == []
    {
      device := None;
      hasClient := false;
      connected := false;
      subscriptions := [];
      operations := [];
    }

    /** `connect`: scan, keep the chosen device, and open a link to it. */
    method Connect(scan: seq<Device>, accepted: bool) returns (ok: bool)
      modifies this
      ensures device == if FirstMatch(scan).Some? then Some(FirstMatch(scan).value.device) else None
      ensures ok <==> device.Some? && accepted
      ensures device.None? ==> && hasClient == old(hasClient) && connected == old(connected)
                               && subscriptions == old(subscriptions) && operations == old(operations)
      ensures device.Some? ==> && hasClient && connected == accepted && subscriptions == []
                               && operations == old(operations) + [ConnectTo(device.value.address)]
    {
      var found := FindDevice(scan);
      if found.None? {
        device := None;
        return false;
      }
      device := Some(found.value.device);
      hasClient := true;
      connected := false;
      subscriptions := [];
      operations := operations + [ConnectTo(found.value.device.address)];
      if !accepted {
        return false;
      }
      connected := true;
      return true;
    }

    /** `read_device_info`: read the information characteristic and decode it; every failure is reported, none escapes. */
    method ReadDeviceInfo(reply: Option<seq<Utf8.byte>>, loads: string -> Option<JsonValue>) returns (info: Option<JsonValue>)
      modifies this
      ensures info == if hasClient then DeviceInfo(reply, loads) else None
      ensures operations == old(operations) + if hasClient then [ReadChar(INFO_CHAR_UUID)] else []
      ensures unchanged(this`device, this`hasClient, this`connected, this`subscriptions)
    {
      if !hasClient {
        return None;
      }
      operations := operations + [ReadChar(INFO_CHAR_UUID)];
      if reply.None? {
        return None;
      }
      var text := Utf8.Decode(reply.value);
      if text.None? {
        return None;
      }
      info := loads(text.value);
    }

    /** `subscribe_notifications`: the state handler first, then the debug handler, in one `try`. */
    method SubscribeNotifications(stateAccepted: bool, debugAccepted: bool)
      modifies this
      ensures operations == old(operations) + if hasClient then SubscribeActions(stateAccepted) else []
      ensures subscriptions == old(subscriptions)
                               + (if hasClient && stateAccepted then [StateSource] else [])
                               + (if hasClient && stateAccepted && debugAccepted then [DebugSource] else [])
      ensures unchanged(this`device, this`hasClient, this`connected)
    {
      if !hasClient {
        return;
      }
      operations := operations + [StartNotify(STATE_CHAR_UUID)];
      if !stateAccepted {
        return;
      }
      subscriptions := subscriptions + [StateSource];
      operations := operations + [StartNotify(DEBUG_CHAR_UUID)];
      if debugAccepted {
        subscriptions := subscriptions + [DebugSource];
      }
    }

    /**
     * `send_command`: serialize with `json.dumps`, encode as UTF-8, write to
     * the command characteristic; a `json.dumps` failure is reported and
     * nothing is written.
     */
    method SendCommand(command: Command)
      modifies this
      ensures operations == old(operations)
                            + if hasClient && Encodable(command) then [WriteChar(COMMAND_CHAR_UUID, Payload(command))] else []
      ensures unchanged(this`device, this`hasClient, this`connected, this`subscriptions)
    {
      if !hasClient || !Encodable(command) {
        return;
      }
      var text := Dumps(JObject(Record(command)));
      var bytes := Utf8.Encode(text);
      operations := operations + [WriteChar(COMMAND_CHAR_UUID, bytes)];
    }

    /** `interactive_mode`, with the loop ending at the end of input (see the findings). */
    method InteractiveMode(input: seq<Input>, infoReply: Option<seq<Utf8.byte>>, loads: string -> Option<JsonValue>)
      modifies this
      ensures operations == old(operations) + if hasClient then LoopActions(input) else []
      ensures unchanged(this`device, this`hasClient, this`connected, this`subscriptions)
    {
      ghost var turns := Turns(input);
      var i := 0;
      assert turns[i..] == turns;
      while i < |input|
        invariant 0 <= i <= |input|
        invariant old(operations) + (if hasClient then TurnActions(turns) else [])
                  == operations + (if hasClient then TurnActions(turns[i..]) else [])
        invariant unchanged(this`device, this`hasClient, this`connected, this`subscriptions)
        decreases |input| - i
      {
        ghost var before := operations;
        var stop := Serve(input[i], infoReply, loads);
        TurnAt(input, i);
        if stop {
          break;
        }
        IssuedStep(before, operations, hasClient, turns, i);
        i := i + 1;
      }
      TurnsEnd(turns, i);
    }

    /** One pass of the loop body: read the event, interpret it, and act on it unless it ends the loop. */
    method Serve(event: Input, infoReply: Option<seq<Utf8.byte>>, loads: string -> Option<JsonValue>) returns (stop: bool)
      modifies this
      ensures stop <==> TurnOf(event).Stop?
      ensures operations == old(operations) + if hasClient && !stop then OutcomeActions(TurnOf(event).outcome) else []
      ensures unchanged(this`device, this`hasClient, this`connected, this`subscriptions)
    {
      if event.Interrupt? {
        return true;
      }
      var outcome := Interpret(event.text);
      if outcome == Quit {
        return true;
      }
      Perform(outcome, infoReply, loads);
      return false;
    }

    /** The branch of the interactive loop's `if`/`elif` chain that an outcome selects, other than `quit`. */
    method Perform(outcome: Outcome, infoReply: Option<seq<Utf8.byte>>, loads: string -> Option<JsonValue>)
      modifies this
      ensures operations == old(operations) + if hasClient then OutcomeActions(outcome) else []
      ensures unchanged(this`device, this`hasClient, this`connected, this`subscriptions)
    {
      match outcome {
        case Send(command) =>
          SendCommand(command);
        case ReadInfo =>
          var _ := ReadDeviceInfo(infoReply, loads);
        case _ =>
      }
    }

    /** `run`: connect, then read the capabilities, subscribe and serve the operator, and disconnect at the end. */
    method Run(scan: seq<Device>, accepted: bool, infoReply: Option<seq<Utf8.byte>>, stateAccepted: bool,
               debugAccepted: bool, input: seq<Input>, loads: string -> Option<JsonValue>)
      modifies this
      ensures operations == old(operations) + SessionActions(scan, accepted, stateAccepted, input)
      ensures device == if FirstMatch(scan).Some? then Some(FirstMatch(scan).value.device) else None
      ensures device.Some? ==> !connected
    {
      ghost var start := operations;
      var ok := Connect(scan, accepted);
      if !ok {
        return;
      }
      var _ := ReadDeviceInfo(infoReply, loads);
      SubscribeNotifications(stateAccepted, debugAccepted);
      InteractiveMode(input, infoReply, loads);
      if hasClient && connected {
        operations := operations + [DisconnectLink];
        connected := false;
      }
      SessionRegroup(start, [ConnectTo(device.value.address)], [ReadChar(INFO_CHAR_UUID)],
                     SubscribeActions(stateAccepted), LoopActions(input), [DisconnectLink]);
    }
  }
}
