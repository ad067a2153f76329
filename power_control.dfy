/**
  The power-state gateway: the token <-> PowerMode codec and the reads and
  writes of the msi-ec driver's two sysfs attributes, `available_shift_modes`
  and `shift_mode`.
*/
module PowerControl {
  import opened Wrappers
  import opened Text

  const ECO_MODE_VALUE: string := "eco"
  const COMFORT_MODE_VALUE: string := "comfort"
  const SPORT_MODE_VALUE: string := "sport"
  const TURBO_MODE_VALUE: string := "turbo"
  /** What Unknown encodes to: a display placeholder, never written to the device. */
  const UNKNOWN_MODE_VALUE: string := "unknown"

  /** The four tokens the driver understands. */
  const ModeTokens: set<string> := {ECO_MODE_VALUE, COMFORT_MODE_VALUE, SPORT_MODE_VALUE, TURBO_MODE_VALUE}

  datatype PowerMode = Eco | Comfort | Sport | Turbo | Unknown

  /** The file operation that failed, standing for the `std::io::Error` it produced. */
  datatype IoStep = Open | Read | Create | Write

  datatype Error = IOError(step: IoStep) | SetUnknownModeError

  /** How reading a sysfs attribute goes: it succeeds, or `File::open` or `read_to_string` fails. */
  datatype ReadFault = ReadOk | OpenFails | ReadFails

  /**
    How writing `shift_mode` goes: `File::create` fails (nothing is touched),
    `write` fails after the truncation, or `write` accepts its first `count`
    bytes (a short write is still `Ok`).
  */
  datatype WriteOutcome = CreateFails | WriteFails | Wrote(count: nat)

  /** Lower-case ASCII letters only: no whitespace and no newline. */
  predicate IsTokenText(s: string)
  {
    |s| > 0 && forall i :: 0 <= i < |s| ==> 'a' <= s[i] <= 'z'
  }

  /** `From<String> for PowerMode`: total; every string outside the four tokens is Unknown. */
  function Decode(value: string): (mode: PowerMode)
    ensures mode == Unknown <==> value !in ModeTokens
  {
    if value == ECO_MODE_VALUE then Eco
    else if value == COMFORT_MODE_VALUE then Comfort
    else if value == SPORT_MODE_VALUE then Sport
    else if value == TURBO_MODE_VALUE then Turbo
    else Unknown
  }

  /**
    `From<PowerMode> for String`: total, and undone by Decode for every mode,
    Unknown included, since its placeholder is none of the four tokens.
  */
  function Encode(mode: PowerMode): (value: string)
    ensures Decode(value) == mode
    ensures value in ModeTokens <==> mode != Unknown
    ensures IsTokenText(value)
  {
    match mode
    case Eco => ECO_MODE_VALUE
    case Comfort => COMFORT_MODE_VALUE
    case Sport => SPORT_MODE_VALUE
    case Turbo => TURBO_MODE_VALUE
    case Unknown => UNKNOWN_MODE_VALUE
  }

  /** No two modes share a token. */
  lemma EncodeInjective(a: PowerMode, b: PowerMode)
    ensures Encode(a) == Encode(b) ==> a == b
  {
  }

  /** Whatever Decode recognises, Encode gives back. */
  lemma EncodeDecode(value: string)
    ensures Decode(value) != Unknown ==> Encode(Decode(value)) == value
  {
  }

  lemma LetterIsNotWhitespace(c: char)
    requires 'a' <= c <= 'z'
    ensures !IsWhitespace(c)
  {
  }

  /** A token trims to itself. */
  lemma TrimToken(mode: PowerMode)
    ensures Trim(Encode(mode)) == Encode(mode)
  {
    var t := Encode(mode);
    LetterIsNotWhitespace(t[0]);
    LetterIsNotWhitespace(t[|t| - 1]);
    TrimExact([], t, []);
    assert [] + t + [] == t;
  }

  /**
    The pipeline of `get_current_power_mode`: trim the attribute's text and
    decode it; unrecognised text gives Unknown.
  */
  function ParseCurrentMode(contents: string): (mode: PowerMode)
    ensures mode != Unknown <==> Trim(contents) in ModeTokens
    ensures mode != Unknown ==> Encode(mode) == Trim(contents)
  {
    EncodeDecode(Trim(contents));
    Decode(Trim(contents))
  }

  /** Whitespace around the current mode, a trailing newline say, does not change it. */
  lemma CurrentModeIgnoresWhitespace(pre: string, contents: string, post: string)
    requires AllWhitespace(pre) && AllWhitespace(post)
    ensures ParseCurrentMode(pre + contents + post) == ParseCurrentMode(contents)
  {
    TrimIgnoresSurroundingWhitespace(pre, contents, post);
  }

  /** Reading back a written token gives the mode that was written. */
  lemma CurrentModeOfToken(mode: PowerMode)
    ensures ParseCurrentMode(Encode(mode)) == mode
  {
    TrimToken(mode);
  }

  /** Decodes each trimmed line, in order. */
  function DecodeLines(lines: seq<string>): (modes: seq<PowerMode>)
    ensures |modes| == |lines|
    ensures forall i :: 0 <= i < |lines| ==> modes[i] == Decode(Trim(lines[i]))
  {
    seq(|lines|, i requires 0 <= i < |lines| => Decode(Trim(lines[i])))
  }

  /** A file with a single line decodes to that one line's mode. */
  lemma LoneLine(contents: string)
    ensures '\n' !in Trim(contents) ==> DecodeLines(Split(Trim(contents), '\n')) == [Decode(Trim(contents))]
  {
    var text := Trim(contents);
    if '\n' !in text {
      SplitWithoutSeparator(text, '\n');
      TrimIdempotent(contents);
    }
  }

  /**
    The pipeline of `get_available_power_modes`: trim the attribute's text,
    split it on newlines, trim and decode each line; a lone Unknown becomes
    the empty list.
  */
  function ParseAvailableModes(contents: string): (modes: seq<PowerMode>)
    // never a lone Unknown
    ensures modes != [Unknown]
    // empty exactly when there is one line and it is no known token
    ensures modes == [] <==> '\n' !in Trim(contents) && Trim(contents) !in ModeTokens
    // otherwise one mode per line, in the file's order, Unknown lines kept
    ensures modes != [] ==>
      var lines := Split(Trim(contents), '\n');
      |modes| == |lines| && forall i :: 0 <= i < |lines| ==> modes[i] == Decode(Trim(lines[i]))
  {
    var modes := DecodeLines(Split(Trim(contents), '\n'));
    LoneLine(contents);
    if |modes| == 1 && Unknown in modes then [] else modes
  }

  /** A single line that is no known token, a blank or whitespace-only file included, gives no modes. */
  lemma SingleUnknownLineGivesNoModes(contents: string)
    requires '\n' !in Trim(contents)
    requires Decode(Trim(contents)) == Unknown
    ensures ParseAvailableModes(contents) == []
  {
  }

  /** With two or more lines every line yields a mode, unrecognised ones as Unknown. */
  lemma SeveralLinesKeepUnknown(contents: string)
    requires '\n' in Trim(contents)
    ensures var lines := Split(Trim(contents), '\n');
      |lines| >= 2 && ParseAvailableModes(contents) == DecodeLines(lines)
  {
  }

  /** The msi-ec platform device's two sysfs attributes. */
  class MsiEc {
    /** `available_shift_modes`: newline-separated tokens; the daemon never writes it. */
    const availableShiftModes: string
    /** `shift_mode`: the current mode's token. */
    var shiftMode: string

    constructor (availableShiftModes: string, shiftMode: string)
      ensures this.availableShiftModes == availableShiftModes && this.shiftMode == shiftMode
    {
      this.availableShiftModes := availableShiftModes;
      this.shiftMode := shiftMode;
    }
  }

  /** `get_available_power_modes`: the parsed list, or the I/O error of the failing step. */
  function GetAvailablePowerModes(device: MsiEc, fault: ReadFault): (r: Result<seq<PowerMode>, Error>)
    ensures r.Success? <==> fault == ReadOk
    ensures fault == OpenFails ==> r == Failure(IOError(Open))
    ensures fault == ReadFails ==> r == Failure(IOError(Read))
    ensures r.Success? ==> r.value == ParseAvailableModes(device.availableShiftModes) && r.value != [Unknown]
  {
    match fault
    case OpenFails => Failure(IOError(Open))
    case ReadFails => Failure(IOError(Read))
    case ReadOk => Success(ParseAvailableModes(device.availableShiftModes))
  }

  /** `get_current_power_mode`: the mode in `shift_mode`, possibly Unknown, or the I/O error. */
  function GetCurrentPowerMode(device: MsiEc, fault: ReadFault): (r: Result<PowerMode, Error>)
    reads device
    ensures r.Success? <==> fault == ReadOk
    ensures fault == OpenFails ==> r == Failure(IOError(Open))
    ensures fault == ReadFails ==> r == Failure(IOError(Read))
    ensures r.Success? ==> r.value == ParseCurrentMode(device.shiftMode)
  {
    match fault
    case OpenFails => Failure(IOError(Open))
    case ReadFails => Failure(IOError(Read))
    case ReadOk => Success(ParseCurrentMode(device.shiftMode))
  }

  /** The result `set_power_mode` reports. */
  function SetResult(mode: PowerMode, io: WriteOutcome): (r: Result<(), Error>)
    ensures mode == Unknown ==> r == Failure(SetUnknownModeError)
    ensures r.Success? <==> mode != Unknown && io.Wrote?
    ensures mode != Unknown && io == CreateFails ==> r == Failure(IOError(Create))
    ensures mode != Unknown && io == WriteFails ==> r == Failure(IOError(Write))
  {
    if mode == Unknown then Failure(SetUnknownModeError)
    else match io
      case CreateFails => Failure(IOError(Create))
      case WriteFails => Failure(IOError(Write))
      case Wrote(_) => Success(())
  }

  /** What `shift_mode` holds after `set_power_mode`. */
  function ShiftModeAfterSet(before: string, mode: PowerMode, io: WriteOutcome): (after: string)
    // refusing Unknown, or failing to open, leaves the attribute alone
    ensures mode == Unknown || io == CreateFails ==> after == before
    // otherwise the old text is gone: what is left is a prefix of the token
    ensures mode != Unknown && io != CreateFails ==> after <= Encode(mode)
    // a complete write leaves exactly the token, which reads back as the mode
    ensures mode != Unknown && io.Wrote? && io.count >= |Encode(mode)| ==>
      after == Encode(mode) && ParseCurrentMode(after) == mode
  {
    if mode == Unknown then before
    else
      var token := Encode(mode);
      match io
      case CreateFails => before
      case WriteFails => []
      case Wrote(count) =>
        CurrentModeOfToken(mode);
        if count < |token| then token[..count] else token
  }

  /**
    `set_power_mode`: refuses Unknown, else truncates `shift_mode` and writes
    the mode's token to it.
  */
  method SetPowerMode(device: MsiEc, powerMode: PowerMode, io: WriteOutcome) returns (r: Result<(), Error>)
    modifies device
    ensures r == SetResult(powerMode, io)
    ensures device.shiftMode == ShiftModeAfterSet(old(device.shiftMode), powerMode, io)
  {
    if powerMode == Unknown {
      return Failure(SetUnknownModeError);
    }
    var powerModeStr := Encode(powerMode);
    match io {
      case CreateFails =>
        return Failure(IOError(Create));
      case WriteFails =>
        device.shiftMode := [];
        return Failure(IOError(Write));
      case Wrote(count) =>
        device.shiftMode := [];
        var written := if count < |powerModeStr| then count else |powerModeStr|;
        device.shiftMode := device.shiftMode + powerModeStr[..written];
        return Success(());
    }
  }
}
