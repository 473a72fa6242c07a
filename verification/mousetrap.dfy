/**
 * The mousetrap sensor firmware's module state, its inbound-message handler
 * (config / OTA / other topics) and one pass of its scan-and-report loop.
 */
module Mousetrap {
  import opened Wrappers
  import Decimal
  import Sprung

  const BaseTopic := "esp32/mousetrap"
  const ConfigTopic := BaseTopic + "/config"
  const TrapTopic := BaseTopic + "/trap"
  const OtaTopic := BaseTopic + "/ota"

  /** What `json.loads` made of a config payload: its `activePins` entry, if it has one. */
  datatype ConfigDoc = ConfigDoc(activePins: Option<seq<int>>)

  /** The result of `json.loads` on a config payload. */
  datatype Decoded = Unparseable | Parsed(doc: ConfigDoc)

  /** The exceptions that escape the handler. */
  datatype Raised = JsonDecodeError | MissingActivePins

  /** What handling one inbound message did. */
  datatype Outcome =
    | ConfigApplied
    | OtaForwarded(payload: string)  // handed to `ota.process_ota_msg`
    | OtaUnavailable                 // no `ota` module: a notice is logged
    | Ignored
    | Failed(error: Raised)

  /** A message handed to the MQTT client for publication. */
  datatype Publication = Publication(topic: string, payload: string, retain: bool)

  /** `pin_to_num` for `pins`: index `i` maps to `str(pins[i])`, and nothing else is a key. */
  ghost predicate PinToNumFor(pins: seq<int>, m: map<nat, string>) {
    (forall i: nat :: i in m <==> i < |pins|)
    && forall i :: 0 <= i < |pins| ==> i in m && m[i] == Decimal.Render(pins[i])
  }

  /** Builds `pin_to_num` by enumerating the pins, one entry per index. */
  method BuildPinToNum(pins: seq<int>) returns (m: map<nat, string>)
    ensures PinToNumFor(pins, m)
  {
    m := map[];
    for idx := 0 to |pins|
      invariant forall i: nat :: i in m <==> i < idx
      invariant forall i :: 0 <= i < idx ==> m[i] == Decimal.Render(pins[i])
    {
      m := m[idx := Decimal.Render(pins[idx])];
    }
  }

  /**
   * The globals of the firmware. `trapPins` holds, for each input handle,
   * the pin number it was opened on.
   */
  class Firmware {
    var updatableConfig: ConfigDoc
    var lastSprungTraps: Option<string>
    var activePins: Option<seq<int>>
    var trapPins: Option<seq<int>>
    var pinToNum: Option<map<nat, string>>
    var configured: bool

    /** The pin state exists exactly once configured, and is derived from `activePins`. */
    ghost predicate Valid()
      reads this
    {
      (activePins.Some? <==> configured)
      && (trapPins.Some? <==> configured)
      && (pinToNum.Some? <==> configured)
      && (configured ==> trapPins == activePins && PinToNumFor(activePins.value, pinToNum.value))
    }

    /** The state at start-up: nothing configured, nothing reported yet. */
    constructor ()
      ensures Valid() && !configured
      ensures updatableConfig == ConfigDoc(None) && lastSprungTraps == None
    {
      updatableConfig := ConfigDoc(None);
      lastSprungTraps := None;
      activePins := None;
      trapPins := None;
      pinToNum := None;
      configured := false;
    }

    /**
     * A config message: `updatable_config` is replaced as soon as the payload
     * parses; the pin state is replaced wholesale only when it names
     * `activePins`, and then `configured` is latched.
     */
    method ApplyConfig(decoded: Decoded) returns (outcome: Outcome)
      requires Valid()
      modifies this
      ensures Valid()
      ensures lastSprungTraps == old(lastSprungTraps)
      ensures decoded.Unparseable? ==>
        outcome == Failed(JsonDecodeError) && unchanged(this)
      ensures decoded.Parsed? && decoded.doc.activePins.None? ==>
        outcome == Failed(MissingActivePins) && updatableConfig == decoded.doc
        && activePins == old(activePins) && trapPins == old(trapPins)
        && pinToNum == old(pinToNum) && configured == old(configured)
      ensures decoded.Parsed? && decoded.doc.activePins.Some? ==>
        var pins := decoded.doc.activePins.value;
        outcome == ConfigApplied && updatableConfig == decoded.doc
        && configured && activePins == Some(pins) && trapPins == Some(pins)
        && PinToNumFor(pins, pinToNum.value)
    {
      if decoded.Unparseable? {
        return Failed(JsonDecodeError);
      }
      updatableConfig := decoded.doc;
      if updatableConfig.activePins.None? {
        return Failed(MissingActivePins);
      }
      var pins := updatableConfig.activePins.value;
      activePins := Some(pins);
      trapPins := Some(pins);
      var m := BuildPinToNum(pins);
      pinToNum := Some(m);
      configured := true;
      outcome := ConfigApplied;
    }

    /**
     * Routes an inbound message by exact topic. `decoded` is what `json.loads`
     * makes of `msg`; `otaPresent` says whether the `ota` module can be imported.
     */
    method HandleIncomingMessage(topic: string, msg: string, decoded: Decoded, otaPresent: bool)
      returns (outcome: Outcome)
      requires Valid()
      modifies this
      ensures Valid()
      ensures lastSprungTraps == old(lastSprungTraps)
      ensures old(configured) ==> configured
      ensures topic == ConfigTopic && decoded.Parsed? && decoded.doc.activePins.Some? ==>
        var pins := decoded.doc.activePins.value;
        outcome == ConfigApplied && configured && updatableConfig == decoded.doc
        && activePins == Some(pins) && trapPins == Some(pins) && PinToNumFor(pins, pinToNum.value)
      ensures topic == ConfigTopic && decoded.Parsed? && decoded.doc.activePins.None? ==>
        outcome == Failed(MissingActivePins) && updatableConfig == decoded.doc
        && activePins == old(activePins) && trapPins == old(trapPins)
        && pinToNum == old(pinToNum) && configured == old(configured)
      ensures topic == ConfigTopic && decoded.Unparseable? ==>
        outcome == Failed(JsonDecodeError) && unchanged(this)
      ensures topic == OtaTopic ==>
        outcome == (if otaPresent then OtaForwarded(msg) else OtaUnavailable) && unchanged(this)
      ensures topic != ConfigTopic && topic != OtaTopic ==>
        outcome == Ignored && unchanged(this)
    {
      if topic == ConfigTopic {
        outcome := ApplyConfig(decoded);
      } else if topic == OtaTopic {
        outcome := if otaPresent then OtaForwarded(msg) else OtaUnavailable;
      } else {
        outcome := Ignored;
      }
    }

    /**
     * Builds the sprung string from one reading per input handle, in
     * configuration order, looking each identifier up in `pinToNum`.
     */
    method SprungTraps(readings: seq<bool>) returns (sprung: string)
      requires Valid() && configured
      requires |readings| == |trapPins.value|
      ensures sprung == Sprung.Joined(activePins.value, readings)
    {
      var pins, ids := activePins.value, pinToNum.value;
      sprung := "";
      for idx := 0 to |readings|
        invariant sprung == Sprung.Joined(pins[..idx], readings[..idx])
      {
        Sprung.JoinedPrefixStep(pins, readings, idx);
        if readings[idx] {
          assert ids[idx] == Decimal.Render(pins[idx]);
          if |sprung| > 0 {
            sprung := sprung + ",";
          }
          sprung := sprung + ids[idx];
        }
      }
      assert pins[..|readings|] == pins && readings[..|readings|] == readings;
    }

    /**
     * One pass of the scan loop: build the sprung string and publish it on
     * the trap topic, not retained, exactly when it differs from the string
     * last recorded; afterwards that string is the recorded one.
     */
    method ScanStep(readings: seq<bool>) returns (published: Option<Publication>)
      requires Valid() && configured
      requires |readings| == |trapPins.value|
      modifies this`lastSprungTraps
      ensures Valid()
      ensures var s := Sprung.Joined(activePins.value, readings);
        lastSprungTraps == Some(s)
        && (published.Some? <==> old(lastSprungTraps) != Some(s))
        && (published.Some? ==> published.value == Publication(TrapTopic, s, false))
        && (if published.Some? then [s] else []) == Sprung.Reports(old(lastSprungTraps), [s])
    {
      var sprung := SprungTraps(readings);
      if lastSprungTraps != Some(sprung) {
        published := Some(Publication(TrapTopic, sprung, false));
        lastSprungTraps := Some(sprung);
      } else {
        published := None;
      }
    }
  }
}
