/**
  The control service: the three D-Bus methods of `org.msi_ec_dbus`, served
  against the available-modes snapshot taken once at start-up and the msi-ec
  device's `shift_mode` attribute.
*/
module DbusHandler {
  import opened Wrappers
  import opened Text
  import opened PowerControl

  /** What the reply to `SetPowerMode` says when the mode was set. */
  const SUCCESS_REPLY: string := "Success"

  /** A D-Bus method error, by class: `MethodErr::failed` carrying the cause, or `MethodErr::invalid_arg`. */
  datatype MethodErr = Failed(cause: Error) | InvalidArg

  /** The token of each mode, in order. */
  function Tokens(modes: seq<PowerMode>): (tokens: seq<string>)
    ensures |tokens| == |modes|
    ensures forall i :: 0 <= i < |modes| ==> tokens[i] == Encode(modes[i])
  {
    seq(|modes|, i requires 0 <= i < |modes| => Encode(modes[i]))
  }

  /**
    The snapshot as `GetAvailablePowerModes` replies with it: the tokens
    joined with newlines. Its lines are the snapshot's tokens, in order.
  */
  function Render(modes: seq<PowerMode>): (reply: string)
    ensures reply == [] <==> modes == []
    ensures modes != [] ==> Split(reply, '\n') == Tokens(modes)
  {
    var tokens := Tokens(modes);
    if modes == [] then []
    else
      NoNewlineInTokens(modes);
      SplitJoin(tokens, '\n');
      JoinEnds(tokens, '\n');
      Join(tokens, '\n')
  }

  lemma NoNewlineInTokens(modes: seq<PowerMode>)
    ensures forall i :: 0 <= i < |modes| ==> '\n' !in Tokens(modes)[i]
  {
    forall i | 0 <= i < |modes| ensures '\n' !in Tokens(modes)[i] {
      var t := Encode(modes[i]);
      assert IsTokenText(t);
    }
  }

  /** A rendered, non-empty snapshot neither starts nor ends with whitespace. */
  lemma RenderIsTrimmed(modes: seq<PowerMode>)
    ensures Trim(Render(modes)) == Render(modes)
  {
    var s := Render(modes);
    if modes != [] {
      var tokens := Tokens(modes);
      JoinEnds(tokens, '\n');
      var first, last := tokens[0], tokens[|tokens| - 1];
      assert IsTokenText(first) && IsTokenText(last);
      assert s[0] == first[0];
      assert s[|s| - 1] == last[|last| - 1];
      LetterIsNotWhitespace(s[0]);
      LetterIsNotWhitespace(s[|s| - 1]);
    }
    TrimExact([], s, []);
    assert [] + s + [] == s;
  }

  /**
    Reading a rendered snapshot back the way `get_available_power_modes`
    reads `available_shift_modes` gives the snapshot again. The one list it
    cannot give back is a lone Unknown, which no snapshot is.
  */
  lemma RenderThenParse(modes: seq<PowerMode>)
    ensures modes != [Unknown] ==> ParseAvailableModes(Render(modes)) == modes
  {
    var s := Render(modes);
    RenderIsTrimmed(modes);
    var parsed := ParseAvailableModes(s);
    if modes == [Unknown] {
    } else if modes == [] {
      assert s == [];
      assert [] !in ModeTokens;
    } else {
      var tokens := Tokens(modes);
      assert Split(s, '\n') == tokens;
      if |modes| == 1 {
        assert s == Join(tokens, '\n') == Encode(modes[0]);
        assert modes[0] != Unknown;
      }
      assert parsed != [];
      forall i | 0 <= i < |modes| ensures parsed[i] == modes[i] {
        TrimToken(modes[i]);
      }
    }
  }

  /**
    The `SetPowerMode` method body on values: the reply, and what
    `shift_mode` holds afterwards. The token is decoded and must be in the
    snapshot; only then is `set_power_mode` asked to write, and its errors
    are passed on as generic failures.
  */
  function HandleSetPowerMode(snapshot: seq<PowerMode>, before: string, powerMode: string, io: WriteOutcome)
    : (res: (Result<string, MethodErr>, string))
    // a mode outside the snapshot is an invalid argument, and nothing is written
    ensures Decode(powerMode) !in snapshot ==> res == (Failure(InvalidArg), before)
    // a token that decodes to Unknown is never written, whatever the snapshot holds
    ensures Decode(powerMode) == Unknown ==> res.0.Failure? && res.1 == before
    ensures Decode(powerMode) == Unknown && Unknown in snapshot ==> res.0 == Failure(Failed(SetUnknownModeError))
    // success exactly when the mode is available, known and the write went through
    ensures res.0.Success? <==> Decode(powerMode) in snapshot && Decode(powerMode) != Unknown && io.Wrote?
    ensures res.0.Success? ==> res.0.value == SUCCESS_REPLY
    // an available mode, written in full, leaves its token in `shift_mode`
    ensures Decode(powerMode) in snapshot && Decode(powerMode) != Unknown && io.Wrote? && io.count >= |Encode(Decode(powerMode))| ==>
      res.1 == Encode(Decode(powerMode)) && ParseCurrentMode(res.1) == Decode(powerMode)
    // an available mode leaves `shift_mode` as `set_power_mode` leaves it:
    // untouched if the file cannot be created, a prefix of the token otherwise
    ensures Decode(powerMode) in snapshot ==> res.1 == ShiftModeAfterSet(before, Decode(powerMode), io)
    // the I/O errors of the write pass through
    ensures Decode(powerMode) in snapshot && Decode(powerMode) != Unknown && !io.Wrote? ==>
      res.0 == Failure(Failed(IOError(if io == CreateFails then Create else Write)))
  {
    var target := Decode(powerMode);
    if target !in snapshot then (Failure(InvalidArg), before)
    else
      var after := ShiftModeAfterSet(before, target, io);
      match SetResult(target, io)
      case Success(_) => (Success(SUCCESS_REPLY), after)
      case Failure(e) => (Failure(Failed(e)), after)
  }

  /** The service's state while serving: the start-up snapshot and the device. */
  class ControlsHandler {
    /** The available modes read at start-up; constant for the life of the service. */
    const availablePowerModes: seq<PowerMode>
    /** The snapshot rendered once, as `GetAvailablePowerModes` replies with it. */
    const availablePowerModesStr: string
    const device: MsiEc

    ghost predicate Valid()
    {
      availablePowerModesStr == Render(availablePowerModes)
    }

    constructor (availablePowerModes: seq<PowerMode>, device: MsiEc)
      ensures Valid()
      ensures this.availablePowerModes == availablePowerModes && this.device == device
    {
      this.availablePowerModes := availablePowerModes;
      this.availablePowerModesStr := Render(availablePowerModes);
      this.device := device;
    }

    /**
      `GetAvailablePowerModes`: the snapshot's tokens, one per line, in
      snapshot order; "" for an empty snapshot. It cannot fail.
    */
    function GetAvailablePowerModes(): (reply: string)
      requires Valid()
      ensures reply == [] <==> availablePowerModes == []
      ensures availablePowerModes != [] ==> Split(reply, '\n') == Tokens(availablePowerModes)
      ensures availablePowerModes != [Unknown] ==> ParseAvailableModes(reply) == availablePowerModes
    {
      RenderThenParse(availablePowerModes);
      availablePowerModesStr
    }

    /**
      `GetCurrentPowerMode`: the token of the mode in `shift_mode`, one of
      the four or the placeholder "unknown"; a read error is a generic failure.
    */
    function GetCurrentPowerMode(fault: ReadFault): (reply: Result<string, MethodErr>)
      reads device
      ensures reply.Success? <==> fault == ReadOk
      ensures reply.Failure? ==> reply.error == Failed(IOError(if fault == OpenFails then Open else Read))
      ensures reply.Success? ==> reply.value in ModeTokens || reply.value == UNKNOWN_MODE_VALUE
      ensures reply.Success? ==> Decode(reply.value) == ParseCurrentMode(device.shiftMode)
      ensures reply.Success? && Trim(device.shiftMode) in ModeTokens ==> reply.value == Trim(device.shiftMode)
    {
      match PowerControl.GetCurrentPowerMode(device, fault)
      case Success(mode) => Success(Encode(mode))
      case Failure(e) => Failure(Failed(e))
    }

    /**
      `SetPowerMode`: checks the decoded token against the snapshot, and
      only then hands it to `set_power_mode`.
    */
    method SetPowerMode(powerMode: string, io: WriteOutcome) returns (reply: Result<string, MethodErr>)
      modifies device
      ensures (reply, device.shiftMode) == HandleSetPowerMode(availablePowerModes, old(device.shiftMode), powerMode, io)
    {
      var targetPowerMode := Decode(powerMode);
      if targetPowerMode !in availablePowerModes {
        return Failure(InvalidArg);
      }
      var r := PowerControl.SetPowerMode(device, targetPowerMode, io);
      match r {
        case Success(_) => reply := Success(SUCCESS_REPLY);
        case Failure(e) => reply := Failure(Failed(e));
      }
    }
  }

  /**
    Start-up, as far as the core goes: take the available-modes snapshot and
    build the handler; a failed read aborts start-up with that error.
  */
  method CreateMsiControlsHandler(device: MsiEc, fault: ReadFault) returns (r: Result<ControlsHandler, Error>)
    ensures r.Success? <==> fault == ReadOk
    ensures r.Failure? ==> r.error == IOError(if fault == OpenFails then Open else Read)
    ensures r.Success? ==> fresh(r.value) && r.value.Valid() && r.value.device == device
    ensures r.Success? ==> r.value.availablePowerModes == ParseAvailableModes(device.availableShiftModes)
    ensures r.Success? ==> r.value.availablePowerModes != [Unknown]
  {
    var modes := GetAvailablePowerModes(device, fault);
    match modes {
      case Failure(e) => return Failure(e);
      case Success(availablePowerModes) =>
        var handler := new ControlsHandler(availablePowerModes, device);
        return Success(handler);
    }
  }

  /** `available_shift_modes` holding three lines is served back line for line. */
  lemma AvailableModesScenario()
    ensures ParseAvailableModes("eco\ncomfort\nsport") == [Eco, Comfort, Sport]
    ensures Render([Eco, Comfort, Sport]) == "eco\ncomfort\nsport"
  {
    var modes := [Eco, Comfort, Sport];
    var tokens := ["eco", "comfort", "sport"];
    assert Tokens(modes) == tokens;
    calc {
      Render(modes);
      Join(tokens, '\n');
      "eco" + "\n" + Join(["comfort", "sport"], '\n');
      { assert ["comfort", "sport"][1..] == ["sport"]; }
      "eco" + "\n" + ("comfort" + "\n" + "sport");
      "eco\ncomfort\nsport";
    }
    RenderThenParse(modes);
  }

  /** `shift_mode` holding "comfort" and a newline reads as comfort. */
  lemma CurrentModeScenario()
    ensures Encode(ParseCurrentMode("comfort\n")) == "comfort"
  {
    CurrentModeIgnoresWhitespace([], "comfort", "\n");
    assert [] + "comfort" + "\n" == "comfort\n";
    CurrentModeOfToken(Comfort);
  }

  /** With eco and comfort available, sport is refused untouched and comfort is written. */
  lemma SetPowerModeScenario(before: string, count: nat)
    requires count >= |"comfort"|
    ensures HandleSetPowerMode([Eco, Comfort], before, "sport", Wrote(count)) == (Failure(InvalidArg), before)
    ensures HandleSetPowerMode([Eco, Comfort], before, "comfort", Wrote(count)) == (Success(SUCCESS_REPLY), "comfort")
  {
    assert Decode("sport") == Sport;
    assert Decode("comfort") == Comfort;
  }

  lemma EcoComfortSnapshot()
    ensures Render([Eco, Comfort]) == "eco\ncomfort"
    ensures ParseAvailableModes("eco\ncomfort") == [Eco, Comfort]
  {
    var modes := [Eco, Comfort];
    assert Tokens(modes) == ["eco", "comfort"];
    calc {
      Render(modes);
      Join(["eco", "comfort"], '\n');
      "eco" + "\n" + "comfort";
      "eco\ncomfort";
    }
    RenderThenParse(modes);
  }

  /** A client of the service: start-up, a refused request, an accepted one, and a read-back. */
  method ServingScenario()
  {
    var device := new MsiEc("eco\ncomfort", "eco\n");
    var created := CreateMsiControlsHandler(device, ReadOk);
    var handler := created.value;
    EcoComfortSnapshot();
    assert handler.availablePowerModes == [Eco, Comfort];
    var available := handler.GetAvailablePowerModes();
    assert available == "eco\ncomfort";

    SetPowerModeScenario("eco\n", 7);
    var reply := handler.SetPowerMode("sport", Wrote(7));
    assert reply == Failure(InvalidArg) && device.shiftMode == "eco\n";
    reply := handler.SetPowerMode("comfort", Wrote(7));
    assert reply == Success(SUCCESS_REPLY) && device.shiftMode == "comfort";
    CurrentModeOfToken(Comfort);
    var current := handler.GetCurrentPowerMode(ReadOk);
    assert current == Success("comfort");
  }
}
