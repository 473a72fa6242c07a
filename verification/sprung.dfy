/**
 * The trap report: the comma-joined identifiers of the sprung traps that a
 * scan builds, how a subscriber reads it back, and which reports a run of
 * scans publishes under the publish-on-change rule.
 */
module Sprung {
  import opened Wrappers
  import Decimal

  /** `','.join(xs)`: the separator between neighbours only. */
  function Join(xs: seq<string>): string
  {
    if |xs| == 0 then ""
    else if |xs| == 1 then xs[0]
    else xs[0] + "," + Join(xs[1..])
  }

  /** `s.split(',')`: always at least one field. */
  function Split(s: string): (r: seq<string>)
    ensures |r| >= 1
  {
    if s == [] then [""]
    else
      var rest := Split(s[1..]);
      if s[0] == ',' then [""] + rest else [[s[0]] + rest[0]] + rest[1..]
  }

  /** How a subscriber reads a report into identifiers: no identifier in `""`. */
  function Fields(s: string): seq<string>
  {
    if s == "" then [] else Split(s)
  }

  predicate Separable(xs: seq<string>) {
    forall i :: 0 <= i < |xs| ==> xs[i] != "" && ',' !in xs[i]
  }

  /** The pin numbers whose reading is true, in configuration order. */
  function SprungPins(pins: seq<int>, readings: seq<bool>): seq<int>
    requires |readings| == |pins|
  {
    if pins == [] then []
    else
      var n := |pins| - 1;
      SprungPins(pins[..n], readings[..n]) + (if readings[n] then [pins[n]] else [])
  }

  /** The positions whose reading is true, ascending. */
  function TrueIndices(readings: seq<bool>): (r: seq<nat>)
    ensures forall k :: 0 <= k < |r| ==> r[k] < |readings| && readings[r[k]]
    ensures forall k, l :: 0 <= k < l < |r| ==> r[k] < r[l]
    ensures forall i :: 0 <= i < |readings| && readings[i] ==> i in r
  {
    if readings == [] then []
    else
      var n := |readings| - 1;
      TrueIndices(readings[..n]) + (if readings[n] then [n] else [])
  }

  /** The identifier `str(p)` of each pin number. */
  function Identifiers(pins: seq<int>): (ids: seq<string>)
    ensures |ids| == |pins|
    ensures forall i :: 0 <= i < |pins| ==> ids[i] == Decimal.Render(pins[i])
  {
    seq(|pins|, i requires 0 <= i < |pins| => Decimal.Render(pins[i]))
  }

  /** The report a scan must build: the sprung identifiers, comma-joined. */
  function Joined(pins: seq<int>, readings: seq<bool>): string
    requires |readings| == |pins|
  {
    Join(Identifiers(SprungPins(pins, readings)))
  }

  lemma {:induction false} JoinSnoc(xs: seq<string>, x: string)
    ensures Join(xs + [x]) == if xs == [] then x else Join(xs) + "," + x
    decreases |xs|
  {
    if |xs| >= 2 {
      assert (xs + [x])[1..] == xs[1..] + [x];
      JoinSnoc(xs[1..], x);
    } else if |xs| == 1 {
      assert (xs + [x])[1..] == [x];
    }
  }

  lemma {:induction false} JoinEmpty(xs: seq<string>)
    requires Separable(xs)
    ensures Join(xs) == "" <==> xs == []
  {
  }

  /**
   * One step of the scan loop: appending a sprung pin adds a comma exactly
   * when the report built so far is non-empty.
   */
  lemma JoinedSnoc(pins: seq<int>, readings: seq<bool>, p: int, b: bool)
    requires |readings| == |pins|
    ensures Joined(pins + [p], readings + [b]) ==
      if !b then Joined(pins, readings)
      else if Joined(pins, readings) == "" then Decimal.Render(p)
      else Joined(pins, readings) + "," + Decimal.Render(p)
  {
    var pins', readings' := pins + [p], readings + [b];
    assert pins'[..|pins|] == pins && readings'[..|pins|] == readings;
    var before := SprungPins(pins, readings);
    if b {
      assert SprungPins(pins', readings') == before + [p];
      assert Identifiers(before + [p]) == Identifiers(before) + [Decimal.Render(p)];
      JoinSnoc(Identifiers(before), Decimal.Render(p));
      assert Separable(Identifiers(before)) by {
        forall i | 0 <= i < |before| ensures Decimal.Render(before[i]) != "" && ',' !in Decimal.Render(before[i]) {}
      }
      JoinEmpty(Identifiers(before));
      assert Identifiers(before) == [] <==> before == [];
    } else {
      assert SprungPins(pins', readings') == before + [];
      assert before + [] == before;
    }
  }

  /** `JoinedSnoc` for the report built over the first `idx + 1` positions. */
  lemma JoinedPrefixStep(pins: seq<int>, readings: seq<bool>, idx: nat)
    requires |readings| == |pins| && idx < |pins|
    ensures var before := Joined(pins[..idx], readings[..idx]);
      Joined(pins[..idx + 1], readings[..idx + 1]) ==
        if !readings[idx] then before
        else if before == "" then Decimal.Render(pins[idx])
        else before + "," + Decimal.Render(pins[idx])
  {
    assert pins[..idx + 1] == pins[..idx] + [pins[idx]];
    assert readings[..idx + 1] == readings[..idx] + [readings[idx]];
    JoinedSnoc(pins[..idx], readings[..idx], pins[idx], readings[idx]);
  }

  /** The sprung pins are exactly the pins at the true positions, in order. */
  lemma {:induction false} SprungPinsAt(pins: seq<int>, readings: seq<bool>)
    requires |readings| == |pins|
    ensures |SprungPins(pins, readings)| == |TrueIndices(readings)|
    ensures forall k :: 0 <= k < |TrueIndices(readings)| ==>
      SprungPins(pins, readings)[k] == pins[TrueIndices(readings)[k]]
  {
    if pins != [] {
      var n := |pins| - 1;
      SprungPinsAt(pins[..n], readings[..n]);
    }
  }

  /** The report is empty exactly when no reading is true. */
  lemma JoinedEmptyIff(pins: seq<int>, readings: seq<bool>)
    requires |readings| == |pins|
    ensures Joined(pins, readings) == "" <==> forall i :: 0 <= i < |readings| ==> !readings[i]
  {
    SprungPinsAt(pins, readings);
    var ids := Identifiers(SprungPins(pins, readings));
    JoinEmpty(ids);
    if exists i :: 0 <= i < |readings| && readings[i] {
      var i :| 0 <= i < |readings| && readings[i];
      assert i in TrueIndices(readings);
    }
  }

  lemma {:induction false} SplitPrefix(x: string, t: string)
    requires ',' !in x
    ensures Split(x + t) == [x + Split(t)[0]] + Split(t)[1..]
    decreases |x|
  {
    if x != [] {
      assert (x + t)[1..] == x[1..] + t;
      assert (x + t)[0] == x[0] && x[0] != ',';
      SplitPrefix(x[1..], t);
      var r, u := Split(x[1..] + t), Split(t);
      assert r == [x[1..] + u[0]] + u[1..];
      assert r[0] == x[1..] + u[0] && r[1..] == u[1..];
      assert Split(x + t) == [[x[0]] + r[0]] + r[1..];
      assert [x[0]] + (x[1..] + u[0]) == x + u[0];
    } else {
      var u := Split(t);
      assert x + t == t && x + u[0] == u[0];
      assert [u[0]] + u[1..] == u;
    }
  }

  lemma {:induction false} SplitJoin(xs: seq<string>)
    requires |xs| >= 1 && forall i :: 0 <= i < |xs| ==> ',' !in xs[i]
    ensures Split(Join(xs)) == xs
    decreases |xs|
  {
    if |xs| == 1 {
      SplitPrefix(xs[0], "");
      assert xs[0] + "" == xs[0];
    } else {
      var rest := "," + Join(xs[1..]);
      assert Join(xs) == xs[0] + rest;
      SplitPrefix(xs[0], rest);
      SplitJoin(xs[1..]);
      assert rest[1..] == Join(xs[1..]);
      assert rest != [] && rest[0] == ',';
      assert Split(rest) == [""] + xs[1..];
      assert xs[0] + "" == xs[0];
      assert [xs[0]] + xs[1..] == xs;
    }
  }

  /** A subscriber splitting a joined report gets the identifiers back. */
  lemma FieldsJoin(xs: seq<string>)
    requires Separable(xs)
    ensures Fields(Join(xs)) == xs
  {
    JoinEmpty(xs);
    if xs != [] {
      SplitJoin(xs);
    }
  }

  /**
   * Reading a report back field by field gives the sprung pin numbers in
   * configuration order.
   */
  lemma DecodeReport(pins: seq<int>, readings: seq<bool>)
    requires |readings| == |pins|
    ensures |Fields(Joined(pins, readings))| == |SprungPins(pins, readings)|
    ensures forall k :: 0 <= k < |SprungPins(pins, readings)| ==>
      Decimal.Parse(Fields(Joined(pins, readings))[k]) == Some(SprungPins(pins, readings)[k])
  {
    var sprung := SprungPins(pins, readings);
    FieldsJoin(Identifiers(sprung));
    forall k | 0 <= k < |sprung|
      ensures Decimal.Parse(Fields(Joined(pins, readings))[k]) == Some(sprung[k])
    {
      Decimal.RenderRoundTrip(sprung[k]);
    }
  }

  /** Active pins 25, 26 and 27 with 25 and 27 sprung report `"25,27"`. */
  lemma JoinedExample()
    ensures Joined([25, 26, 27], [true, false, true]) == "25,27"
  {
    var pins, readings := [25, 26, 27], [true, false, true];
    assert pins[..2] == [25, 26] && readings[..2] == [true, false];
    assert pins[..2][..1] == [25] && readings[..2][..1] == [true];
    assert SprungPins([25], [true]) == [25];
    assert SprungPins([25, 26], [true, false]) == [25];
    assert SprungPins(pins, readings) == [25, 27];
    assert Decimal.Render(25) == "25" && Decimal.Render(27) == "27";
    assert Identifiers([25, 27]) == ["25", "27"];
  }

  /**
   * The reports that scans building the strings `built` publish, one after
   * the other, when `last` was recorded before them: a scan publishes its
   * string exactly when it differs from the one last recorded.
   */
  function Reports(last: Option<string>, built: seq<string>): seq<string>
    decreases |built|
  {
    if built == [] then []
    else if last == Some(built[0]) then Reports(last, built[1..])
    else [built[0]] + Reports(Some(built[0]), built[1..])
  }

  /** A run of scans publishes what its first part does, then its second part. */
  lemma {:induction false} ReportsAppend(last: Option<string>, a: seq<string>, b: seq<string>)
    requires a != []
    ensures Reports(last, a + b) == Reports(last, a) + Reports(Some(a[|a| - 1]), b)
    decreases |a|
  {
    assert (a + b)[0] == a[0];
    assert (a + b)[1..] == a[1..] + b;
    var next := if last == Some(a[0]) then last else Some(a[0]);
    if |a| == 1 {
      assert a[1..] == [];
      assert a[1..] + b == b;
    } else {
      ReportsAppend(next, a[1..], b);
    }
  }

  /**
   * After a run, the value a subscriber received last is the string the
   * last scan built: either the run published it, or it was already the
   * recorded one.
   */
  lemma {:induction false} ReportsEndCurrent(last: Option<string>, built: seq<string>)
    requires built != []
    ensures var r := Reports(last, built);
      if r == [] then last == Some(built[|built| - 1])
      else r[|r| - 1] == built[|built| - 1]
    decreases |built|
  {
    if |built| > 1 {
      var next := Some(built[0]);
      ReportsEndCurrent(next, built[1..]);
    }
  }

  /**
   * Consecutive publications differ, and the first one differs from the
   * value recorded before the run; starting from `None`, the first scan
   * always publishes, even an empty report.
   */
  lemma {:induction false} ReportsChange(last: Option<string>, built: seq<string>)
    ensures var r := Reports(last, built);
      (forall k :: 0 <= k < |r| - 1 ==> r[k] != r[k + 1])
      && (r != [] ==> last != Some(r[0]))
      && (last == None && built != [] ==> r != [] && r[0] == built[0])
    decreases |built|
  {
    if built != [] {
      var next := Some(built[0]);
      ReportsChange(next, built[1..]);
      if last == next {
        ReportsChange(last, built[1..]);
      }
    }
  }

  /**
   * Scans building `""`, `""`, `"25"`, `"25"`, `"25,27"` and `""` from the
   * initial `None` publish at the first, third, fifth and sixth scan.
   */
  lemma ReportsExample()
    ensures Reports(None, ["", "", "25", "25", "25,27", ""]) == ["", "25", "25,27", ""]
    ensures Reports(Some(""), ["", "", "25", "25", "25,27", ""]) == ["25", "25,27", ""]
  {
  }
}
