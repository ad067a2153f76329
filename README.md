# msi_ec_dbus power-mode core, in Dafny

`msi_ec_dbus` is a small daemon that puts the msi-ec kernel driver's power
("shift") modes on the system D-Bus. The driver exposes two sysfs attributes.
`available_shift_modes` lists the modes the laptop supports, one token per
line. `shift_mode` holds the current mode's token. The daemon reads the list
once at start-up and then serves three methods: `GetAvailablePowerModes`,
`GetCurrentPowerMode` and `SetPowerMode`.

This project models the two files that hold all of the daemon's logic:

- `src/controls/power_control.rs` is the power-state gateway. It holds the
  token/`PowerMode` codec, the parsing of both attributes and the guarded
  write of `shift_mode`. See `power_control.dfy`, module `PowerControl`.
- `src/dbus_handler.rs` is the control service. It renders the snapshot
  and holds the three method bodies. See `dbus_handler.dfy`, module
  `DbusHandler`.

Two helper modules support them. `text.dfy` (module `Text`) gives Rust's
`str::trim`, `str::split` and `[String]::join` as recursive functions, with
their characterising lemmas. `wrappers.dfy` gives `Result`.

How the model is built:

- The driver's two attributes are a class, `PowerControl.MsiEc`.
  `availableShiftModes` is a `const` because the daemon never writes it.
  `shiftMode` is a `var` that `SetPowerMode` rewrites.
- I/O outcomes are parameters, not effects. A read either succeeds or fails
  at `File::open` or at `read_to_string` (`ReadFault`). A write of
  `shift_mode` has three outcomes (`WriteOutcome`):
  - `File::create` fails, and nothing changes;
  - `write` fails after the truncation, and the attribute is left empty;
  - `write` accepts its first `count` bytes.
- `write_all` would turn a short write into an error, but
  `src/controls/power_control.rs:95` uses `write` and discards its byte
  count, so a short write still returns `Ok`. `ShiftModeAfterSet` keeps
  exactly that: the attribute then holds a prefix of the token and the
  daemon still replies "Success". The exact-token result is proved only for
  a complete write.
- The snapshot is a `const` field of `DbusHandler.ControlsHandler`, which
  makes it immutable by construction. `SetPowerMode` checks membership
  against it and modifies only the device.
- When a multi-line `available_shift_modes` keeps an `Unknown` line in the
  snapshot, a request whose token decodes to `Unknown` passes the membership
  check. `set_power_mode` then refuses it with `SetUnknownModeError`, which
  reaches the caller as a generic `MethodErr::failed`, not as
  `invalid_arg`. The model follows the code. `HandleSetPowerMode` states
  this case, and also that such a request never writes.
- `trim` uses Rust's `char::is_whitespace`: the full Unicode White_Space set,
  listed out in `Text.WhiteSpace`.

## Model

| member | source | states |
|---|---|---|
| `PowerControl.Decode` | src/controls/power_control.rs:37-47 | Decoding is total: the result is `Unknown` exactly when the string is none of `eco`, `comfort`, `sport`, `turbo` |
| `PowerControl.Encode` | src/controls/power_control.rs:49-59 | `Decode(Encode(m)) == m` for every mode, `Unknown` included; the token is one of the four exactly when `m != Unknown`, so the placeholder `unknown` is never a valid token; every token is non-empty lower-case ASCII |
| `PowerControl.EncodeInjective` | src/controls/power_control.rs:49-59 | Two modes with the same token are the same mode |
| `PowerControl.EncodeDecode` | src/controls/power_control.rs:37-59 | Whatever `Decode` recognises, `Encode` gives back unchanged |
| `PowerControl.ParseCurrentMode` | src/controls/power_control.rs:83 | The current mode is known exactly when the trimmed text is one of the four tokens, and then its token is that trimmed text |
| `PowerControl.CurrentModeIgnoresWhitespace` | src/controls/power_control.rs:83 | Whitespace before or after the text of `shift_mode`, such as a trailing newline, does not change the mode read |
| `PowerControl.CurrentModeOfToken` | src/controls/power_control.rs:83 | Reading back a token that was written gives the mode that was written |
| `PowerControl.ParseAvailableModes` | src/controls/power_control.rs:67-75 | Never a lone `Unknown`. Empty exactly when the trimmed text is one line that is no known token. Otherwise one mode per line, in file order, each the decoded trimmed line, `Unknown` lines kept |
| `PowerControl.SingleUnknownLineGivesNoModes` | src/controls/power_control.rs:67-73 | A single unrecognised line gives the empty list; this includes an empty or whitespace-only file |
| `PowerControl.SeveralLinesKeepUnknown` | src/controls/power_control.rs:67-75 | With two or more lines, every line gives a mode in place, `Unknown` included; the lone-`Unknown` rule does not apply |
| `PowerControl.GetAvailablePowerModes` | src/controls/power_control.rs:62-76 | Succeeds exactly when the read succeeds, and then returns the parsed list, never a lone `Unknown`. An open or read failure is the matching I/O error |
| `PowerControl.GetCurrentPowerMode` | src/controls/power_control.rs:79-85 | Succeeds exactly when the read succeeds, and then returns the parsed mode, possibly `Unknown`. Decoding never fails; only open or read failures do |
| `PowerControl.SetResult` | src/controls/power_control.rs:88-98 | `Unknown` is refused with `SetUnknownModeError`. Any other mode succeeds exactly when `write` returns, and otherwise fails with the create or write error |
| `PowerControl.ShiftModeAfterSet` | src/controls/power_control.rs:88-98 | Refusing `Unknown`, or failing to create the file, leaves `shift_mode` unchanged. Otherwise the old text is gone and a prefix of the token remains. A complete write leaves exactly the token, which reads back as the mode |
| `PowerControl.SetPowerMode` | src/controls/power_control.rs:88-98 | Returns `SetResult` and leaves `shift_mode` equal to `ShiftModeAfterSet` of its old text; it modifies nothing but the device |
| `Text.Trim` | src/controls/power_control.rs:67-68 | The trimmed text is empty, or starts and ends with a non-whitespace character |
| `Text.TrimExact` | src/controls/power_control.rs:67-68 | Trim removes exactly the whitespace around a text that neither starts nor ends with whitespace, which determines Trim completely |
| `Text.TrimEmpty` | src/controls/power_control.rs:67 | A text trims to nothing exactly when it is all whitespace |
| `Text.TrimIgnoresSurroundingWhitespace` | src/controls/power_control.rs:83 | Adding whitespace before and after a text does not change its trim |
| `Text.TrimIdempotent` | src/controls/power_control.rs:67-68 | Trimming an already trimmed line changes nothing |
| `Text.Split` | src/controls/power_control.rs:67 | Splitting gives at least one piece, and exactly one when there is no separator; joining the pieces back gives the text |
| `Text.SplitPiecesLackSeparator` | src/controls/power_control.rs:67 | No piece of a split holds the separator |
| `Text.SplitWithoutSeparator` | src/controls/power_control.rs:67 | A text without a newline is a single line |
| `Text.SplitJoin` | src/dbus_handler.rs:41-44 | Splitting a join of separator-free parts gives back the parts, in order |
| `DbusHandler.Render` | src/dbus_handler.rs:41-44 | The rendered snapshot is empty exactly when the snapshot is; otherwise its lines are the snapshot's tokens, in snapshot order |
| `DbusHandler.RenderThenParse` | src/dbus_handler.rs:40-44 | Parsing the rendered snapshot as `available_shift_modes` is parsed gives the snapshot back, for every list except a lone `Unknown`, which no snapshot is |
| `DbusHandler.HandleSetPowerMode` | src/dbus_handler.rs:57-66 | Handles a `SetPowerMode` request. A mode outside the snapshot gives `invalid_arg` and no write. A token that decodes to `Unknown` never writes, and fails generically when the snapshot holds `Unknown`. Success, replying "Success", happens exactly when the mode is available, known and `write` returned. For an available mode, `shift_mode` ends as `ShiftModeAfterSet` leaves it: untouched when the file cannot be created, otherwise a prefix of the token, and the whole token after a complete write. Write errors pass through as generic failures |
| `DbusHandler.ControlsHandler.constructor` | src/dbus_handler.rs:40-44 | The handler keeps the snapshot it is given and its rendering |
| `DbusHandler.ControlsHandler.GetAvailablePowerModes` | src/dbus_handler.rs:49-52 | The reply is "" exactly for an empty snapshot. Otherwise its lines are the snapshot's tokens in order, and it parses back to the snapshot |
| `DbusHandler.ControlsHandler.GetCurrentPowerMode` | src/dbus_handler.rs:53-56 | Fails, as a generic failure carrying the I/O error, exactly when the read fails. Otherwise it replies with one of `eco`, `comfort`, `sport`, `turbo`, `unknown`, which decodes to the mode in `shift_mode`. When the trimmed attribute is a valid token, the reply is that token |
| `DbusHandler.ControlsHandler.SetPowerMode` | src/dbus_handler.rs:57-66 | The reply and the new `shift_mode` are those of `HandleSetPowerMode` for the handler's own snapshot; the snapshot cannot change |
| `DbusHandler.CreateMsiControlsHandler` | src/dbus_handler.rs:40-44 | Start-up fails exactly when reading `available_shift_modes` fails. Otherwise the new handler's snapshot is that file parsed, never a lone `Unknown` |
| `DbusHandler.AvailableModesScenario` | src/dbus_handler.rs:41-44 | `eco`, `comfort` and `sport` on three lines parse to those three modes, and render back to the same text |
| `DbusHandler.CurrentModeScenario` | src/controls/power_control.rs:83 | `shift_mode` holding `comfort` plus a newline is reported as `comfort` |
| `DbusHandler.SetPowerModeScenario` | src/dbus_handler.rs:57-66 | With `eco` and `comfort` available, `sport` is refused as an invalid argument without a write, and `comfort`, written in full, replies "Success" and leaves exactly `comfort` |

## Left out

- `src/main.rs`: the check that the msi-ec directory exists, the messages and the exit codes are process bootstrap.
- D-Bus plumbing: the system-bus connection, `request_name`, `Crossroads` registration, the object path and the blocking serve loop are calls into libraries. The `DBusError` variant of `ControlsHandlerError` goes with them, and so `CreateMsiControlsHandler` models only the snapshot step of start-up.
- Real file I/O: `File::open`, `read_to_string`, `File::create` and `write` are replaced by the `MsiEc` attributes and the `ReadFault` and `WriteOutcome` parameters. A `read_to_string` failure on text that is not UTF-8 counts as a read failure. Token bytes and characters coincide because tokens are ASCII.
- The two sysfs attributes are modelled as plain files. `File::create` truncating `shift_mode`, the attribute left empty after a failed `write`, and a short write leaving a prefix of the token are plain-file behaviour. The msi-ec driver's store handler parses the written bytes instead of keeping them as file content, and that handler is not part of this model. `ShiftModeAfterSet` states the plain-file outcome.
- Changes that the driver or the hardware makes to `shift_mode` between calls are not modelled as events. Every read simply takes whatever `shiftMode` holds at that moment.
- Error texts: the `thiserror` messages and the `MethodErr` strings. Errors are kept only as classes: I/O error with the failing step, unknown mode, invalid argument.
- The `println!("DEBUG")` lines in `src/dbus_handler.rs`.
