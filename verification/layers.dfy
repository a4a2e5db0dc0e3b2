/** The map's layer switches (`activeLayers` on the tracker page, and the desktop and mobile
    overlay panels). The switches are a plain object from layer id to flag; a missing key
    reads as `undefined`, which is falsy, so `On` is the truthiness of `activeLayers[id]`. */
module Layers {
  type Switches = map<string, bool>

  predicate On(m: Switches, id: string) {
    id in m && m[id]
  }

  predicate Distinct(ids: seq<string>) {
    forall i, j :: 0 <= i < j < |ids| ==> ids[i] != ids[j]
  }

  /** The page's initial switches: cones, tracks and pressure on; no `ai-predictions` key. */
  const Initial: Switches := map[
    "nhc-cones" := true, "nhc-tracks" := true, "nhc-warnings" := false,
    "gfs-temperature" := false, "gfs-pressure" := true, "gfs-wind" := false,
    "cmems-currents" := false, "cmems-waves" := false]

  /** Every layer the desktop panel lists, in its group order. */
  const PanelIds: seq<string> := [
    "nhc-cones", "nhc-tracks", "nhc-warnings", "ai-predictions",
    "gfs-temperature", "gfs-pressure", "gfs-wind", "cmems-currents", "cmems-waves"]

  /** The raster layers the desktop "Clean Mobile View" button hides. */
  const RasterIds: seq<string> := ["gfs-temperature", "gfs-pressure", "gfs-wind", "cmems-currents", "cmems-waves"]

  /** The layers the desktop "Hurricane Essentials Only" button shows. */
  const EssentialIds: seq<string> := ["nhc-cones", "ai-predictions"]

  /** The overlays the mobile toggle shows and hides together. */
  const OverlayIds: seq<string> := [
    "gfs-temperature", "gfs-pressure", "gfs-wind", "cmems-currents", "cmems-waves", "nhc-warnings"]

  /** `handleToggleLayer`: the key is set to the negation of what it read (a missing key becomes
      `true`), and every other key is left as it was. */
  function Toggle(m: Switches, id: string): (r: Switches)
    ensures id in r && (On(r, id) <==> !On(m, id))
    ensures forall k :: k != id ==> (k in r <==> k in m)
    ensures forall k :: k != id && k in m ==> r[k] == m[k]
  {
    m[id := !On(m, id)]
  }

  /** Toggling twice reads back every switch as it was; the map itself comes back unless the
      key was missing, in which case it comes back holding `false`. */
  lemma ToggleTwice(m: Switches, id: string)
    ensures forall k :: On(Toggle(Toggle(m, id), id), k) <==> On(m, k)
    ensures id in m ==> Toggle(Toggle(m, id), id) == m
    ensures id !in m ==> Toggle(Toggle(m, id), id) == m[id := false]
  {
  }

  /** The ids of the switches that are on. */
  function OnSet(m: Switches): set<string> {
    set k | k in m && m[k]
  }

  /** `getActiveCount`: how many switches are on. */
  function ActiveCount(m: Switches): (r: nat)
    ensures r <= |m|
    ensures r == 0 <==> forall k :: k in m ==> !m[k]
  {
    var on := OnSet(m);
    assert on <= m.Keys;
    CardinalitySubset(on, m.Keys);
    if forall k :: k in m ==> !m[k] then
      assert on == {};
      |on|
    else
      var k :| k in m && m[k];
      assert k in on;
      |on|
  }

  lemma CardinalitySubset<T>(a: set<T>, b: set<T>)
    requires a <= b
    ensures |a| <= |b|
  {
    assert b == a + (b - a);
  }

  /** A toggle moves the active count by exactly one, up or down with the switch. */
  lemma ToggleCount(m: Switches, id: string)
    ensures On(m, id) ==> ActiveCount(Toggle(m, id)) == ActiveCount(m) - 1
    ensures !On(m, id) ==> ActiveCount(Toggle(m, id)) == ActiveCount(m) + 1
  {
    var r := Toggle(m, id);
    var before := OnSet(m);
    var after := OnSet(r);
    forall k | k != id
      ensures k in after <==> k in before
    {
      assert (k in r <==> k in m) && (k in m ==> r[k] == m[k]);
    }
    assert id in after <==> !On(m, id);
    if On(m, id) {
      assert id in before;
      assert after == before - {id};
    } else {
      assert id !in before;
      assert after == before + {id};
    }
  }

  /** `layers.forEach(onLayerToggle)`: each listed id toggled in turn. */
  function ToggleEach(m: Switches, ids: seq<string>): (r: Switches)
    ensures forall k :: k !in ids ==> (k in r <==> k in m)
    ensures forall k :: k !in ids && k in m ==> r[k] == m[k]
    ensures Distinct(ids) ==> forall k :: k in ids ==> (On(r, k) <==> !On(m, k))
    decreases |ids|
  {
    if ids == [] then m
    else
      var rest := ToggleEach(Toggle(m, ids[0]), ids[1..]);
      assert Distinct(ids) ==> ids[0] !in ids[1..] && Distinct(ids[1..]);
      assert forall k :: k in ids ==> k == ids[0] || k in ids[1..];
      rest
  }

  /** The panel state: the switches and the "show all" flag the header button displays. */
  datatype Panel = Panel(switches: Switches, showAll: bool)

  /** `handleToggleAll` as written: the flag is negated, but every listed layer is toggled
      instead of being set to the new flag. */
  function ToggleAll(p: Panel): (r: Panel)
    ensures r.showAll == !p.showAll
    ensures forall k :: k in PanelIds ==> (On(r.switches, k) <==> !On(p.switches, k))
    ensures forall k :: k !in PanelIds ==> (k in r.switches <==> k in p.switches)
  {
    PanelDistinct();
    Panel(ToggleEach(p.switches, PanelIds), !p.showAll)
  }

  /** Two presses of "toggle all" restore the flag and every switch reading. */
  lemma ToggleAllTwice(p: Panel)
    ensures ToggleAll(ToggleAll(p)).showAll == p.showAll
    ensures forall k :: On(ToggleAll(ToggleAll(p)).switches, k) <==> On(p.switches, k)
  {
    var once := ToggleAll(p);
    var twice := ToggleAll(once);
    forall k
      ensures On(twice.switches, k) <==> On(p.switches, k)
    {
      if k !in PanelIds {
        assert k in twice.switches <==> k in p.switches;
      }
    }
  }

  lemma PanelDistinct()
    ensures Distinct(PanelIds)
  {
  }

  /** Whenever the flag shows "all on" and some listed layer is off, as in the page's first
      state, "toggle all" clears the flag yet turns that layer on, and turns the layers that
      were on off: the flag and the switches disagree. */
  lemma ToggleAllDisagrees(p: Panel, k: string)
    requires p.showAll && k in PanelIds && !On(p.switches, k)
    ensures !ToggleAll(p).showAll && On(ToggleAll(p).switches, k)
  {
  }

  /** The page's first state meets that condition: warnings off, cones on, flag set. */
  lemma InitialDisagrees()
    ensures "nhc-warnings" in PanelIds && !On(Initial, "nhc-warnings")
    ensures "nhc-cones" in PanelIds && On(Initial, "nhc-cones")
  {
    assert PanelIds[2] == "nhc-warnings" && PanelIds[0] == "nhc-cones";
    InitialWarningsOff();
    InitialConesOn();
  }

  lemma InitialWarningsOff()
    ensures "nhc-warnings" in Initial && !Initial["nhc-warnings"]
  {
    assert "nhc-warnings" != "cmems-waves" by { assert |"nhc-warnings"| != |"cmems-waves"|; }
    assert "nhc-warnings" != "cmems-currents" by { assert "nhc-warnings"[0] != "cmems-currents"[0]; }
    assert "nhc-warnings" != "gfs-wind" by { assert "nhc-warnings"[0] != "gfs-wind"[0]; }
    assert "nhc-warnings" != "gfs-pressure" by { assert "nhc-warnings"[0] != "gfs-pressure"[0]; }
    assert "nhc-warnings" != "gfs-temperature" by { assert "nhc-warnings"[0] != "gfs-temperature"[0]; }
  }

  lemma InitialConesOn()
    ensures "nhc-cones" in Initial && Initial["nhc-cones"]
  {
    assert "nhc-cones" != "cmems-waves" by { assert "nhc-cones"[0] != "cmems-waves"[0]; }
    assert "nhc-cones" != "cmems-currents" by { assert "nhc-cones"[0] != "cmems-currents"[0]; }
    assert "nhc-cones" != "gfs-wind" by { assert "nhc-cones"[0] != "gfs-wind"[0]; }
    assert "nhc-cones" != "gfs-pressure" by { assert "nhc-cones"[0] != "gfs-pressure"[0]; }
    assert "nhc-cones" != "gfs-temperature" by { assert "nhc-cones"[0] != "gfs-temperature"[0]; }
    assert "nhc-cones" != "nhc-warnings" by { assert "nhc-cones"[4] != "nhc-warnings"[4]; }
    assert "nhc-cones" != "nhc-tracks" by { assert "nhc-cones"[4] != "nhc-tracks"[4]; }
  }

  /** `handleToggleAll` as intended: every listed layer is set to the new flag. */
  function ShowAll(p: Panel): (r: Panel)
    ensures r.showAll == !p.showAll
    ensures forall k :: k in PanelIds ==> (On(r.switches, k) <==> r.showAll)
    ensures forall k :: k !in PanelIds ==> (k in r.switches <==> k in p.switches)
    ensures forall k :: k !in PanelIds && k in p.switches ==> r.switches[k] == p.switches[k]
  {
    PanelDistinct();
    Panel(Guarded(p.switches, p.switches, PanelIds, !p.showAll), !p.showAll)
  }

  /** Pressing the intended button twice leaves the flag as it was and every listed layer
      matching it. */
  lemma ShowAllTwice(p: Panel)
    ensures ShowAll(ShowAll(p)).showAll == p.showAll
    ensures forall k :: k in PanelIds ==> (On(ShowAll(ShowAll(p)).switches, k) <==> p.showAll)
  {
  }

  /** The guarded loop the other buttons share: each listed id whose switch, as read from the
      snapshot `snap` taken when the button was pressed, differs from `v` is toggled. */
  function Guarded(snap: Switches, m: Switches, ids: seq<string>, v: bool): (r: Switches)
    ensures forall k :: k !in ids ==> (k in r <==> k in m)
    ensures forall k :: k !in ids && k in m ==> r[k] == m[k]
    ensures Distinct(ids) ==>
              forall k :: k in ids ==> (On(r, k) <==> if On(snap, k) != v then !On(m, k) else On(m, k))
    ensures Distinct(ids) ==>
              forall k :: k in ids && On(snap, k) == v ==> (k in r <==> k in m) && (k in m ==> r[k] == m[k])
    decreases |ids|
  {
    if ids == [] then m
    else
      var next := if On(snap, ids[0]) != v then Toggle(m, ids[0]) else m;
      assert Distinct(ids) ==> ids[0] !in ids[1..] && Distinct(ids[1..]);
      assert forall k :: k in ids ==> k == ids[0] || k in ids[1..];
      Guarded(snap, next, ids[1..], v)
  }

  /** Setting the listed switches to `v` against the current switches: afterwards each reads
      `v`, a switch that already read `v` is untouched, and unlisted switches are kept. */
  function SetEach(m: Switches, ids: seq<string>, v: bool): (r: Switches)
    requires Distinct(ids)
    ensures forall k :: k in ids ==> (On(r, k) <==> v)
    ensures forall k :: k in ids && On(m, k) == v ==> (k in r <==> k in m) && (k in m ==> r[k] == m[k])
    ensures forall k :: k !in ids ==> (k in r <==> k in m)
    ensures forall k :: k !in ids && k in m ==> r[k] == m[k]
  {
    Guarded(m, m, ids, v)
  }

  /** The desktop "Clean Mobile View" button: every raster layer off, the rest kept. */
  function CleanView(m: Switches): (r: Switches)
    ensures forall k :: k in RasterIds ==> !On(r, k)
    ensures forall k :: k in RasterIds && !On(m, k) ==> (k in r <==> k in m) && (k in m ==> r[k] == m[k])
    ensures forall k :: k !in RasterIds ==> (k in r <==> k in m)
    ensures forall k :: k !in RasterIds && k in m ==> r[k] == m[k]
  {
    assert Distinct(RasterIds);
    SetEach(m, RasterIds, false)
  }

  /** Cleaning a clean view changes nothing. */
  lemma CleanViewIdempotent(m: Switches)
    ensures CleanView(CleanView(m)) == CleanView(m)
  {
    assert Distinct(RasterIds);
    SetEachIdempotent(m, RasterIds, false);
  }

  /** Setting the same switches to the same value twice is setting them once. */
  lemma SetEachIdempotent(m: Switches, ids: seq<string>, v: bool)
    requires Distinct(ids)
    ensures SetEach(SetEach(m, ids, v), ids, v) == SetEach(m, ids, v)
  {
    var once := SetEach(m, ids, v);
    var twice := SetEach(once, ids, v);
    forall k
      ensures (k in twice <==> k in once) && (k in once ==> twice[k] == once[k])
    {
      if k in ids {
        assert On(once, k) == v;
      }
    }
  }

  /** The desktop "Hurricane Essentials Only" button: cones and AI predictions on. It hides
      nothing: every other switch is kept. */
  function Essentials(m: Switches): (r: Switches)
    ensures On(r, "nhc-cones") && On(r, "ai-predictions")
    ensures forall k :: k !in EssentialIds ==> (k in r <==> k in m)
    ensures forall k :: k !in EssentialIds && k in m ==> r[k] == m[k]
  {
    assert Distinct(EssentialIds);
    SetEach(m, EssentialIds, true)
  }

  /** The mobile toggle's state: the switches and its own "show overlays" flag. */
  datatype Mobile = Mobile(switches: Switches, showOverlays: bool)

  /** `handleToggleOverlays`: the flag is negated and every overlay is set to the new flag. */
  function ToggleOverlays(p: Mobile): (r: Mobile)
    ensures r.showOverlays == !p.showOverlays
    ensures forall k :: k in OverlayIds ==> (On(r.switches, k) <==> r.showOverlays)
    ensures forall k :: k !in OverlayIds ==> (k in r.switches <==> k in p.switches)
    ensures forall k :: k !in OverlayIds && k in p.switches ==> r.switches[k] == p.switches[k]
  {
    assert Distinct(OverlayIds);
    Mobile(SetEach(p.switches, OverlayIds, !p.showOverlays), !p.showOverlays)
  }

  /** How many of the listed switches are on. */
  function CountOn(m: Switches, ids: seq<string>): (r: nat)
    ensures r <= |ids|
    ensures (forall k :: k in ids ==> On(m, k)) ==> r == |ids|
    ensures (forall k :: k in ids ==> !On(m, k)) ==> r == 0
    decreases |ids|
  {
    if ids == [] then 0
    else
      assert forall k :: k in ids[1..] ==> k in ids;
      (if On(m, ids[0]) then 1 else 0) + CountOn(m, ids[1..])
  }

  /** `getActiveOverlayCount`. */
  function OverlayCount(m: Switches): (r: nat)
    ensures r <= 6
  {
    CountOn(m, OverlayIds)
  }

  /** After the mobile toggle the badge reads all six overlays or none, with the flag. */
  lemma ToggleOverlaysCount(p: Mobile)
    ensures OverlayCount(ToggleOverlays(p).switches) == if !p.showOverlays then 6 else 0
  {
  }
}
