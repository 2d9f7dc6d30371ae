/** light.cpp: the lazily populated light registry and the idempotent
    per-light enable/disable. The source keeps the registry in a static
    array; here it is a value passed in and out, keyed by light id. */
module Lights {
  import opened Gl

  datatype Light = Light(id: Enum, enabled: bool)

  /** The registry: the light constructed for each id requested so far. */
  type Registry = map<Enum, Light>

  /** The ids get_light accepts: [GL_LIGHT0, GL_LIGHT0 + GL_MAX_LIGHTS). */
  predicate ValidId(id: Enum) {
    GL_LIGHT0 <= id < GL_LIGHT0 + GL_MAX_LIGHTS
  }

  /** Every entry is a light of a valid id, stored under its own id. */
  ghost predicate WellFormed(reg: Registry) {
    forall id :: id in reg ==> ValidId(id) && reg[id].id == id
  }

  /** light::light: a new light is disabled. */
  function NewLight(id: Enum): (l: Light)
    ensures l.id == id && !IsEnabled(l)
  {
    Light(id, false)
  }

  /** light::get_light: empty for an id out of range; otherwise the light
      for that id, constructed on first request. The light is returned as
      its key in the registry. */
  function GetLight(reg: Registry, id: Enum): (r: (Registry, Option<Enum>))
    ensures !ValidId(id) ==> r == (reg, None)
    ensures ValidId(id) ==> r.1 == Some(id) && id in r.0
    ensures ValidId(id) && id in reg ==> r.0 == reg
    ensures ValidId(id) && id !in reg ==> r.0[id] == NewLight(id)
                                          && forall k :: k in reg ==> k in r.0 && r.0[k] == reg[k]
    ensures WellFormed(reg) ==> WellFormed(r.0)
    ensures r.0.Keys == if ValidId(id) then reg.Keys + {id} else reg.Keys
  {
    if !ValidId(id) then (reg, None)
    else if id in reg then (reg, Some(id))
    else (reg[id := NewLight(id)], Some(id))
  }

  /** A second request for the same id returns the same light and leaves
      the registry as the first request left it. */
  lemma GetLightStable(reg: Registry, id: Enum)
    requires ValidId(id)
    ensures var (first, l1) := GetLight(reg, id);
            var (second, l2) := GetLight(first, id);
            l1 == l2 && second == first && !IsEnabled(first[id]) == !IsEnabled(second[id])
  {
  }

  /** light::is_enabled: the flag that enable sets and disable clears. */
  function IsEnabled(l: Light): (b: bool)
    ensures b == l.enabled
  {
    l.enabled
  }

  /** light::enable: no call when already enabled; otherwise one glEnable
      of the light's id, and the flag is set. */
  function EnableLight(reg: Registry, id: Enum): (r: Step<Registry>)
    requires id in reg
    ensures r.status == Ok && id in r.state && IsEnabled(r.state[id])
    ensures IsEnabled(reg[id]) ==> r.state == reg && r.calls == []
    ensures !IsEnabled(reg[id]) ==> r.calls == [Enable(reg[id].id)]
    ensures r.state.Keys == reg.Keys && r.state[id].id == reg[id].id
    ensures forall k :: k in reg && k != id ==> r.state[k] == reg[k]
  {
    var l := reg[id];
    if l.enabled then Step(reg, [], Ok)
    else Step(reg[id := l.(enabled := true)], [Enable(l.id)], Ok)
  }

  /** light::disable: the mirror image of enable. */
  function DisableLight(reg: Registry, id: Enum): (r: Step<Registry>)
    requires id in reg
    ensures r.status == Ok && id in r.state && !IsEnabled(r.state[id])
    ensures !IsEnabled(reg[id]) ==> r.state == reg && r.calls == []
    ensures IsEnabled(reg[id]) ==> r.calls == [Disable(reg[id].id)]
    ensures r.state.Keys == reg.Keys && r.state[id].id == reg[id].id
    ensures forall k :: k in reg && k != id ==> r.state[k] == reg[k]
  {
    var l := reg[id];
    if !l.enabled then Step(reg, [], Ok)
    else Step(reg[id := l.(enabled := false)], [Disable(l.id)], Ok)
  }

  /** Enabling twice leaves the same state and the same trace as enabling
      once; likewise for disabling. */
  lemma EnableDisableIdempotent(reg: Registry, id: Enum)
    requires id in reg
    ensures var once := EnableLight(reg, id);
            var twice := EnableLight(once.state, id);
            twice.state == once.state && once.calls + twice.calls == once.calls
    ensures var once := DisableLight(reg, id);
            var twice := DisableLight(once.state, id);
            twice.state == once.state && once.calls + twice.calls == once.calls
  {
  }

  /** Enabling a disabled light and disabling it again restores the
      registry and issues exactly one glEnable and one glDisable. */
  lemma EnableThenDisable(reg: Registry, id: Enum)
    requires id in reg && !IsEnabled(reg[id])
    ensures var on := EnableLight(reg, id);
            var off := DisableLight(on.state, id);
            off.state == reg && on.calls + off.calls == [Enable(reg[id].id), Disable(reg[id].id)]
  {
    var on := EnableLight(reg, id);
    assert on.state[id := reg[id]] == reg;
  }

  // As written, LIGHTS is an array of GL_MAX_LIGHTS entries indexed by the
  // raw id, and GL_MAX_LIGHTS is the query token 0x0D31 while every id that
  // passes the range check is at least GL_LIGHT0 = 0x4000.

  /** The outcome of get_light as written: the array access either stays
      in bounds or indexes past the end (undefined behaviour). */
  datatype ArrayLookup =
    | Returned(lights: seq<Option<Light>>, light: Option<Light>)
    | IndexOutOfBounds(index: nat, length: nat)

  /** get_light as written over the array of GL_MAX_LIGHTS entries: an id
      out of range is rejected before the access; every id in range is used
      as the index unchanged and lands past the end. */
  function GetLightFromArray(lights: seq<Option<Light>>, id: Enum): (r: ArrayLookup)
    requires |lights| == GL_MAX_LIGHTS
    ensures ValidId(id) <==> r.IndexOutOfBounds?
    ensures r.IndexOutOfBounds? ==> r.index == id && r.index >= r.length
    ensures r.Returned? ==> r == Returned(lights, None)
  {
    if !ValidId(id) then Returned(lights, None)
    else IndexOutOfBounds(id, |lights|)
  }

  /** No id that passes the range check indexes the array within bounds;
      GL_LIGHT0 is the smallest such id and is already out of range. */
  lemma ArrayIndexAlwaysOutOfBounds(id: Enum)
    requires ValidId(id)
    ensures id >= GL_MAX_LIGHTS
    ensures ValidId(GL_LIGHT0) && GL_LIGHT0 >= GL_MAX_LIGHTS
  {
  }
}
