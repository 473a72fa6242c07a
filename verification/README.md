# Mousetrap sensor firmware — verified model

A Dafny model of the core of an MQTT mousetrap sensor's firmware (`main.py`).
The firmware keeps a handful of module globals: the decoded config
(`updatable_config`), the configured pin numbers (`active_pins`), one input
handle per pin (`trap_pins`), the index-to-identifier map (`pin_to_num`), the
`configured` latch and the last published report (`last_sprung_traps`).

Two pieces of it are modelled:

* **The inbound-message handler** (`handle_incoming_message`). A message on
  `esp32/mousetrap/config` replaces the pin state wholesale and latches
  `configured`. A message on `esp32/mousetrap/ota` goes to the optional `ota`
  module, or produces a notice when that module is absent. Any other topic is
  ignored. This is `Mousetrap.Firmware.HandleIncomingMessage` and
  `Mousetrap.Firmware.ApplyConfig`, over the class `Mousetrap.Firmware` that
  holds the globals. Its object invariant `Valid()` says that the pin state
  exists exactly once `configured` holds. It also says that `trapPins` and
  `pinToNum` are derived from `activePins`. So every index the scan looks up
  in `pinToNum` is present.
* **One pass of the scan loop** in `main`. It builds the sprung string by
  walking the input handles in configuration order and comma-joining the
  identifiers whose reading is true. It publishes that string on
  `esp32/mousetrap/trap` only when it differs from `last_sprung_traps`, then
  records it. `Mousetrap.Firmware.SprungTraps` is the loop. It is proved equal to
  the reference `Sprung.Joined` (the identifiers of `Sprung.SprungPins`,
  joined by `Sprung.Join`). `Mousetrap.Firmware.ScanStep` adds the
  publish-on-change rule. `Sprung.Reports` gives what a whole run of scans
  publishes.

Python's `str(int)` for pin numbers is `Decimal.Render`. Its inverse
`Decimal.Parse` is how a subscriber reads an identifier back. `Sprung.Split`
is Python's `str.split(',')`, and `Sprung.Fields` is the subscriber's reading
of a whole report.

Inputs the firmware takes from the outside world are parameters:

* the pin readings of a scan are a `seq<bool>`, one per input handle;
* what `json.loads` makes of a config payload is a `Decoded` value;
* whether the `ota` module can be imported is a `bool`;
* a publication is a returned `Publication` value.

Behaviour of the code that the model keeps as written:

* The firmware validates nothing (main.py:45-51). A pin list may be empty,
  may repeat a pin, and may name any integer.
* Errors escape the handler. A payload that does not parse raises before any
  assignment (main.py:45). A parsed payload without `activePins` raises after
  `updatable_config` has already been replaced (main.py:46).
* `configured` is set on every applied config (main.py:51). Nothing resets it.
* `last_sprung_traps` starts as `None` (main.py:27), so the first scan
  publishes, even `""`. For scans building `""`, `""`, `"25"`, `"25"`,
  `"25,27"`, `""`, that means publishing at scans 1, 3, 5 and 6
  (`Sprung.ReportsExample`, which also shows the run from a recorded `""`).

## Model

| member | source | states |
|---|---|---|
| `Decimal.Render` | main.py:50 | an identifier `str(p)` is non-empty, holds no comma, and starts with `-` exactly for a negative pin number |
| `Decimal.RenderRoundTrip` | main.py:50 | reading an identifier back as a decimal numeral gives the pin number it was rendered from |
| `Decimal.RenderInjective` | main.py:49-50 | two pin numbers get the same identifier only if they are equal |
| `Mousetrap.BuildPinToNum` | main.py:48-50 | the map built has exactly the keys `0..|P|-1`, and key `i` maps to `str(P[i])` |
| `Mousetrap.Firmware.constructor` | main.py:24-31 | start-up state: empty config, nothing reported (`None`), not configured, no pin state |
| `Mousetrap.Firmware.ApplyConfig` | main.py:38-51 | an unparseable payload raises and changes nothing; a payload without `activePins` raises after replacing only `updatable_config`; otherwise `active_pins` and `trap_pins` become P in order, `pin_to_num` is rebuilt from P alone, and `configured` is latched; `last_sprung_traps` is never touched |
| `Mousetrap.Firmware.HandleIncomingMessage` | main.py:34-57 | config topic as above; OTA topic forwards the raw message, or reports the missing module, and changes no state; any other topic is ignored and changes no state; `configured` never goes back to false |
| `Mousetrap.Firmware.SprungTraps` | main.py:88-94 | the string the loop builds, comma-checking with `len(sprung_traps) > 0` and looking identifiers up in `pin_to_num`, equals the comma-join of the sprung identifiers in configuration order |
| `Mousetrap.Firmware.ScanStep` | main.py:87-97 | publishes the built string on the trap topic, not retained, iff it differs from `last_sprung_traps`; afterwards `last_sprung_traps` holds it in both cases; from `None` the first scan always publishes |
| `Sprung.TrueIndices` | main.py:89-90 | the positions with a true reading, strictly ascending, each true position included |
| `Sprung.SprungPinsAt` | main.py:88-94 | the sprung pins are exactly the pins at the true positions, in index order |
| `Sprung.JoinedPrefixStep` | main.py:92-94 | appending a sprung identifier adds a `,` exactly when the string built so far is non-empty, which gives a single separator and none leading or trailing |
| `Sprung.JoinedEmptyIff` | main.py:88-94 | the sprung string is `""` iff no reading is true |
| `Sprung.FieldsJoin` | main.py:92-94 | splitting a comma-joined report at `,` gives back exactly the identifiers joined |
| `Sprung.DecodeReport` | main.py:88-94 | a subscriber reading the report field by field gets the sprung pin numbers, in configuration order |
| `Sprung.JoinedExample` | main.py:88-94 | active pins 25, 26, 27 with 25 and 27 sprung give exactly `"25,27"` |
| `Sprung.ReportsAppend` | main.py:87-98 | the reports of a run of scans are those of its first part followed by those of the rest, starting from the last string the first part built |
| `Sprung.ReportsEndCurrent` | main.py:95-97 | after any run, the last value published (or the one recorded before the run) is the string the last scan built |
| `Sprung.ReportsChange` | main.py:95-97 | consecutive publications differ; the first differs from what was recorded before; from `None` the first scan publishes its string, even `""` |
| `Sprung.ReportsExample` | main.py:95-97 | scans building `""`, `""`, `"25"`, `"25"`, `"25,27"`, `""` publish `""`, `"25"`, `"25,27"`, `""` from `None`, and the last three only from a recorded `""` |

## Left out

- The MQTT client (`mqtt_as.MQTTClient`) is not part of this model. Connect, subscribe, the last-will setup, the `online` and version publications and `client.close` are network I/O. A trap publication is modelled as a returned `Publication`.
- The `uasyncio` scheduling is left out. This covers the `while not configured` wait, `asyncio.sleep`, the event loop and `wifi_han`. The wait appears only as `ScanStep`'s precondition `configured`. One pass of the infinite loop is `ScanStep`, and `Sprung.Reports` describes a run of them. `handle_incoming_message` has no `await` (main.py:38-57), so it is one atomic method. The scan step does suspend at `await client.publish(...)` (main.py:96), after reading `trap_pins` and `pin_to_num` and before writing `last_sprung_traps` (main.py:97). A config message may be handled during that suspension. Modelling `ScanStep` as one atomic method is still sound: the handler never writes `last_sprung_traps` (main.py:37 does not list it), and `sprung_traps` is local to the scan. So running the scan first and the handler second gives the same result.
- `machine.Pin` is left out. Readings are a `seq<bool>`, one per input handle. The model assumes that opening each input succeeds. A pin number the hardware rejects would raise after `active_pins` is assigned and before `trap_pins` is rebuilt, and that case is not modelled.
- `json.loads` is abstracted to the `Decoded` value for the payload: unparseable, or a document with or without an `activePins` list of integers. A payload whose `activePins` is not a list of integers is not modelled.
- The UTF-8 decoding of topic and payload (main.py:35-36) is left out. Both arrive as strings, so invalid UTF-8, which raises before any dispatch, is not modelled.
- The handler's unused `retained` argument is left out. So is the `print` logging, both in the handler (main.py:39, 57) and in the scan loop (main.py:91).
- `ota.process_ota_msg` is a foreign call. The model records only that the raw message is handed to it. Its effects and its own exceptions are not modelled.
- `Decimal.Parse` reads only the numerals `str(int)` produces (an optional `-`, then digits). It is not all of Python's `int()`.
