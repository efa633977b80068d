/** The relay bank of device/ticle/src/ext/actuators/relays/relays.py:
    each relay has a contact type, a logical state and an optional
    interlock group; within a group at most one relay may be ON, and a
    group with auto-change switches the others OFF instead of refusing.
    The output pins are the values last written to them. */
module RelayBank {
  import opened Wrappers

  const ON: int := 1
  const OFF: int := 0
  const NORMALLY_OPEN: bool := true
  const NORMALLY_CLOSED: bool := false

  /** The level written to the pin for a logical state: as is for a
      normally open contact, inverted for a normally closed one. */
  function Phys(ct: bool, st: int): int
  {
    if ct == NORMALLY_OPEN then st else 1 - st
  }

  /** A snapshot of the bank. */
  datatype Bank = Bank(contact: seq<bool>, logical: seq<int>, groups: seq<Option<string>>,
                       auto: map<string, bool>, outputs: seq<int>)

  predicate Wf(k: Bank)
  {
    |k.contact| == |k.logical| == |k.groups| == |k.outputs|
  }

  /** Every pin shows its relay's logical state through its contact type. */
  predicate Consistent(k: Bank)
  {
    Wf(k) && forall i :: 0 <= i < |k.logical| ==> k.outputs[i] == Phys(k.contact[i], k.logical[i])
  }

  /** No two relays of one group are ON together. */
  predicate OneOnPerGroup(k: Bank)
  {
    Wf(k) && forall i, j :: (0 <= i < |k.logical| && 0 <= j < |k.logical| && i != j
      && k.groups[i].Some? && k.groups[i] == k.groups[j] && k.logical[i] == ON) ==> k.logical[j] != ON
  }

  /** `get_interlock_auto_change`: off unless set. */
  function AutoChange(auto: map<string, bool>, g: string): bool
  {
    if g in auto then auto[g] else false
  }

  /** Relay `j` stands in the way of turning `idx` ON in group `g`. */
  predicate Rival(k: Bank, idx: nat, g: string, j: nat)
    requires Wf(k) && j < |k.logical|
  {
    j != idx && k.groups[j] == Some(g) && k.logical[j] == ON
  }

  /** Relay `idx` takes state `st` and its pin follows. */
  function Put(k: Bank, idx: nat, st: int): (r: Bank)
    requires Wf(k) && idx < |k.logical|
    ensures Wf(r) && r.contact == k.contact && r.groups == k.groups && r.auto == k.auto
    ensures |r.logical| == |k.logical| && r.logical[idx] == st
  {
    k.(logical := k.logical[idx := st], outputs := k.outputs[idx := Phys(k.contact[idx], st)])
  }

  /** The rivals below `m` switched OFF. */
  function SwitchOffUpTo(k: Bank, idx: nat, g: string, m: nat): (r: Bank)
    requires Wf(k)
    ensures Wf(r) && r.contact == k.contact && r.groups == k.groups && r.auto == k.auto
    ensures |r.logical| == |k.logical|
  {
    k.(logical := seq(|k.logical|, j requires 0 <= j < |k.logical| =>
                        if j < m && Rival(k, idx, g, j) then OFF else k.logical[j]),
       outputs := seq(|k.logical|, j requires 0 <= j < |k.logical| =>
                        if j < m && Rival(k, idx, g, j) then Phys(k.contact[j], OFF) else k.outputs[j]))
  }

  /** `_check_interlock(idx, st)`: the bank after the check and whether
      the change may go ahead. */
  function Interlock(k: Bank, idx: nat, st: int): (Bank, bool)
    requires Wf(k) && idx < |k.logical|
  {
    var g := k.groups[idx];
    if g.None? || st != ON then (k, true)
    else if AutoChange(k.auto, g.value) then (SwitchOffUpTo(k, idx, g.value, |k.logical|), true)
    else if exists j :: 0 <= j < |k.logical| && Rival(k, idx, g.value, j) then (k, false)
    else (k, true)
  }

  /** `_set_relay_state(idx, st)`: the bank after the request and whether
      it was carried out. */
  function SetState(k: Bank, idx: nat, st: int): (r: (Bank, bool))
    requires Wf(k) && idx < |k.logical|
    ensures Wf(r.0) && r.0.contact == k.contact && r.0.groups == k.groups && r.0.auto == k.auto
    ensures |r.0.logical| == |k.logical|
  {
    var (k1, ok) := Interlock(k, idx, st);
    if !ok then (k, false) else (Put(k1, idx, st), true)
  }

  /** A request is refused exactly when it turns a grouped relay ON while
      another relay of its group is ON and the group has no auto-change;
      a refused request changes nothing. */
  lemma RefusedOnlyForRival(k: Bank, idx: nat, st: int)
    requires Wf(k) && idx < |k.logical|
    ensures var (r, ok) := SetState(k, idx, st);
      (!ok <==> st == ON && k.groups[idx].Some? && !AutoChange(k.auto, k.groups[idx].value)
                && exists j :: 0 <= j < |k.logical| && j != idx && k.groups[j] == k.groups[idx] && k.logical[j] == ON)
      && (!ok ==> r == k)
  {
    var g := k.groups[idx];
    if g.Some? && st == ON && !AutoChange(k.auto, g.value) {
      if exists j :: 0 <= j < |k.logical| && j != idx && k.groups[j] == g && k.logical[j] == ON {
        var j :| 0 <= j < |k.logical| && j != idx && k.groups[j] == g && k.logical[j] == ON;
        assert Rival(k, idx, g.value, j);
      }
    }
  }

  /** OFF, or any state for a relay outside every group, is never refused. */
  lemma OffNeverRefused(k: Bank, idx: nat, st: int)
    requires Wf(k) && idx < |k.logical| && (st != ON || k.groups[idx].None?)
    ensures SetState(k, idx, st).1 && SetState(k, idx, st).0 == Put(k, idx, st)
  {
  }

  /** A request carried out sets the relay and its pin; any other relay
      that changed was an ON rival of its group, switched OFF under
      auto-change. */
  lemma AcceptedSets(k: Bank, idx: nat, st: int)
    requires Consistent(k) && idx < |k.logical|
    ensures var (r, ok) := SetState(k, idx, st);
      ok ==> (r.logical[idx] == st && Consistent(r)
        && forall j :: 0 <= j < |k.logical| && j != idx && r.logical[j] != k.logical[j] ==>
             (st == ON && k.groups[idx].Some? && AutoChange(k.auto, k.groups[idx].value)
              && k.groups[j] == k.groups[idx] && k.logical[j] == ON && r.logical[j] == OFF))
  {
  }

  /** Under auto-change, turning a grouped relay ON always succeeds and
      leaves it the only ON relay of its group. */
  lemma AutoChangeClearsGroup(k: Bank, idx: nat)
    requires Wf(k) && idx < |k.logical| && k.groups[idx].Some? && AutoChange(k.auto, k.groups[idx].value)
    ensures var (r, ok) := SetState(k, idx, ON);
      ok && r.logical[idx] == ON
      && forall j :: 0 <= j < |k.logical| && j != idx && k.groups[j] == k.groups[idx] ==> r.logical[j] != ON
  {
  }

  /** At most one relay per group stays ON across any request. */
  lemma OneOnPerGroupKept(k: Bank, idx: nat, st: int)
    requires OneOnPerGroup(k) && idx < |k.logical|
    ensures OneOnPerGroup(SetState(k, idx, st).0)
  {
    var (r, ok) := SetState(k, idx, st);
    var g := k.groups[idx];
    if ok && st == ON && g.Some? {
      forall j | 0 <= j < |k.logical| && j != idx && k.groups[j] == g
        ensures r.logical[j] != ON
      {
        if !AutoChange(k.auto, g.value) {
          assert !Rival(k, idx, g.value, j);
        }
      }
    }
  }

  /** `_set_state_all`: the same request for each index in turn. */
  function SetAll(k: Bank, st: int, ids: seq<nat>): (r: Bank)
    requires Wf(k) && forall m :: 0 <= m < |ids| ==> ids[m] < |k.logical|
    ensures Wf(r) && r.contact == k.contact && r.groups == k.groups && r.auto == k.auto
    ensures |r.logical| == |k.logical|
    decreases |ids|
  {
    if ids == [] then k else SetState(SetAll(k, st, ids[..|ids| - 1]), ids[|ids| - 1], st).0
  }

  /** The list form of the `state` setter: each index with its own state. */
  function SetEach(k: Bank, ids: seq<nat>, vals: seq<int>): (r: Bank)
    requires Wf(k) && |vals| == |ids| && forall m :: 0 <= m < |ids| ==> ids[m] < |k.logical|
    ensures Wf(r) && r.contact == k.contact && r.groups == k.groups && r.auto == k.auto
    ensures |r.logical| == |k.logical|
    decreases |ids|
  {
    if ids == [] then k
    else SetState(SetEach(k, ids[..|ids| - 1], vals[..|ids| - 1]), ids[|ids| - 1], vals[|ids| - 1]).0
  }

  /** The states `toggle` asks for: ON becomes OFF and anything else ON. */
  function Flipped(k: Bank, ids: seq<nat>): (r: seq<int>)
    requires Wf(k) && forall m :: 0 <= m < |ids| ==> ids[m] < |k.logical|
    ensures |r| == |ids|
  {
    seq(|ids|, m requires 0 <= m < |ids| => if k.logical[ids[m]] == ON then OFF else ON)
  }

  /** The groups of the listed relays cleared. */
  function ClearGroups(k: Bank, ids: seq<nat>): (r: Bank)
    requires Wf(k) && forall m :: 0 <= m < |ids| ==> ids[m] < |k.logical|
    ensures Wf(r) && r.contact == k.contact && r.logical == k.logical && r.outputs == k.outputs && r.auto == k.auto
    ensures forall j :: 0 <= j < |k.logical| ==> r.groups[j] == if j in ids then None else k.groups[j]
  {
    k.(groups := seq(|k.groups|, j requires 0 <= j < |k.groups| => if j in ids then None else k.groups[j]))
  }

  /** `emergency_stop`: the listed relays leave their groups, then all of
      them are switched OFF. */
  function Stopped(k: Bank, ids: seq<nat>): Bank
    requires Wf(k) && forall m :: 0 <= m < |ids| ==> ids[m] < |k.logical|
  {
    SetAll(ClearGroups(k, ids), OFF, ids)
  }

  /** Switching a run of relays OFF is never refused and touches no other
      relay. */
  lemma {:induction false} SetAllOff(k: Bank, ids: seq<nat>)
    requires Wf(k) && forall m :: 0 <= m < |ids| ==> ids[m] < |k.logical|
    ensures forall j :: 0 <= j < |k.logical| ==> SetAll(k, OFF, ids).logical[j] == if j in ids then OFF else k.logical[j]
    decreases |ids|
  {
    if ids != [] {
      var front := ids[..|ids| - 1];
      SetAllOff(k, front);
      OffNeverRefused(SetAll(k, OFF, front), ids[|ids| - 1], OFF);
      assert forall j :: j in ids <==> j in front || j == ids[|ids| - 1] by {
        assert ids == front + [ids[|ids| - 1]];
      }
    }
  }

  /** After an emergency stop every listed relay is OFF and in no group,
      and every other relay keeps its state and its group. */
  lemma EmergencyStopMeaning(k: Bank, ids: seq<nat>)
    requires Wf(k) && forall m :: 0 <= m < |ids| ==> ids[m] < |k.logical|
    ensures var r := Stopped(k, ids);
      forall j :: 0 <= j < |k.logical| ==>
        (j in ids ==> r.logical[j] == OFF && r.groups[j] == None)
        && (j !in ids ==> r.logical[j] == k.logical[j] && r.groups[j] == k.groups[j])
  {
    SetAllOff(ClearGroups(k, ids), ids);
  }

  /** With no relay of the list in a group and no index repeated, `toggle`
      flips each listed relay and leaves the rest alone. */
  lemma ToggleUngrouped(k: Bank, ids: seq<nat>)
    requires Wf(k) && forall m :: 0 <= m < |ids| ==> ids[m] < |k.logical| && k.groups[ids[m]].None?
    requires forall m, n :: 0 <= m < n < |ids| ==> ids[m] != ids[n]
    ensures var r := SetEach(k, ids, Flipped(k, ids));
      (forall m :: 0 <= m < |ids| ==> r.logical[ids[m]] == if k.logical[ids[m]] == ON then OFF else ON)
      && forall j :: 0 <= j < |k.logical| && j !in ids ==> r.logical[j] == k.logical[j]
  {
    SetEachUngrouped(k, ids, Flipped(k, ids));
  }

  /** The list form of the setter, on relays outside every group: each
      listed relay takes its state. */
  lemma {:induction false} SetEachUngrouped(k: Bank, ids: seq<nat>, vals: seq<int>)
    requires Wf(k) && |vals| == |ids|
    requires forall m :: 0 <= m < |ids| ==> ids[m] < |k.logical| && k.groups[ids[m]].None?
    requires forall m, n :: 0 <= m < n < |ids| ==> ids[m] != ids[n]
    ensures forall m :: 0 <= m < |ids| ==> SetEach(k, ids, vals).logical[ids[m]] == vals[m]
    ensures forall j :: 0 <= j < |k.logical| && j !in ids ==> SetEach(k, ids, vals).logical[j] == k.logical[j]
    decreases |ids|
  {
    if ids != [] {
      var n := |ids| - 1;
      var front := ids[..n];
      SetEachUngrouped(k, front, vals[..n]);
      var k1 := SetEach(k, front, vals[..n]);
      OffNeverRefused(k1, ids[n], vals[n]);
      forall m | 0 <= m < n
        ensures ids[m] == front[m] && ids[m] != ids[n]
      {
      }
      forall j | 0 <= j < |k.logical| && j !in ids
        ensures j !in front
      {
        assert ids == front + [ids[n]];
      }
    }
  }

  /** The outputs the constructor writes: every pin LOW, whatever the
      contact type. */
  function InitialOutputsAsWritten(n: nat): seq<int>
  {
    seq(n, i => 0)
  }

  /** Written that way, a normally closed relay starts with its pin LOW
      while its logical state is OFF, which its contact type maps to HIGH:
      the relay sits energised-off, i.e. its load is ON. */
  lemma NormallyClosedStartsOnAsWritten()
    ensures var k := Bank([NORMALLY_CLOSED], [OFF], [None], map[], InitialOutputsAsWritten(1));
      Wf(k) && !Consistent(k)
  {
    var k := Bank([NORMALLY_CLOSED], [OFF], [None], map[], InitialOutputsAsWritten(1));
    assert k.outputs[0] == 0 != Phys(k.contact[0], k.logical[0]);
  }

  /** The relay bank. */
  class Relays {
    const pins: seq<int>
    var contact: seq<bool>
    var logical: seq<int>
    var groups: seq<Option<string>>
    var autoChange: map<string, bool>
    var outputs: seq<int>

    function Snapshot(): Bank
      reads this
    {
      Bank(contact, logical, groups, autoChange, outputs)
    }

    /** One entry per pin, and every pin shows its relay's state. */
    predicate Valid()
      reads this
    {
      |pins| > 0 && |logical| == |pins| && Consistent(Snapshot())
    }

    /** A bank of relays of one contact type, all OFF, in no group, with
        every pin written to match. */
    constructor (ps: seq<int>, ct: bool)
      requires |ps| > 0
      ensures Valid() && pins == ps && autoChange == map[]
      ensures contact == seq(|ps|, i => ct) && logical == seq(|ps|, i => OFF) && groups == seq(|ps|, i => None)
    {
      pins := ps;
      contact := seq(|ps|, i => ct);
      logical := seq(|ps|, i => OFF);
      groups := seq(|ps|, i => None);
      autoChange := map[];
      outputs := seq(|ps|, i => Phys(ct, OFF));
    }

    /** The constructor's check: no bank without a pin. */
    static method Create(ps: seq<int>, ct: bool) returns (r: Option<Relays>)
      ensures r.None? <==> |ps| == 0
      ensures r.Some? ==> (fresh(r.value) && r.value.Valid() && r.value.pins == ps
        && r.value.logical == seq(|ps|, i => OFF))
    {
      if |ps| == 0 {
        return None;
      }
      var b := new Relays(ps, ct);
      return Some(b);
    }

    /** `set_interlock_auto_change`: no effect for no group. */
    method SetInterlockAutoChange(g: Option<string>, value: bool)
      requires Valid()
      modifies this
      ensures Valid() && contact == old(contact) && logical == old(logical)
      ensures groups == old(groups) && outputs == old(outputs)
      ensures autoChange == if g.Some? then old(autoChange)[g.value := value] else old(autoChange)
    {
      if g.Some? {
        autoChange := autoChange[g.value := value];
      }
    }

    /** `_update_physical_output`: the pin shows the relay's state through
        its contact type. */
    method UpdatePhysicalOutput(idx: nat)
      requires idx < |outputs| && idx < |contact| && idx < |logical|
      modifies this
      ensures contact == old(contact) && logical == old(logical) && groups == old(groups)
      ensures outputs == old(outputs)[idx := Phys(contact[idx], logical[idx])]
      ensures autoChange == old(autoChange)
    {
      var st := logical[idx];
      var phys := if contact[idx] == NORMALLY_OPEN then st else 1 - st;
      outputs := outputs[idx := phys];
    }

    /** `_check_interlock`. */
    method CheckInterlock(idx: nat, st: int) returns (ok: bool)
      requires Valid() && idx < |logical|
      modifies this
      ensures Valid() && (Snapshot(), ok) == Interlock(old(Snapshot()), idx, st)
      decreases if st == ON then 1 else 0, 0
    {
      var g := groups[idx];
      if g.None? {
        return true;
      }
      if st == ON {
        var auto := AutoChange(autoChange, g.value);
        ghost var k := Snapshot();
        var i := 0;
        while i < |pins|
          invariant 0 <= i <= |pins| && Valid() && groups == k.groups
          invariant auto ==> Snapshot() == SwitchOffUpTo(k, idx, g.value, i)
          invariant !auto ==> Snapshot() == k && forall j :: 0 <= j < i ==> !Rival(k, idx, g.value, j)
        {
          if i != idx && groups[i] == g && logical[i] == ON {
            if auto {
              SwitchOffStep(k, idx, g.value, i);
              var _ := SetRelayState(i, OFF);
            } else {
              assert Rival(k, idx, g.value, i);
              return false;
            }
          } else if auto {
            SwitchOffStep(k, idx, g.value, i);
          }
          i := i + 1;
        }
      }
      return true;
    }

    /** `_set_relay_state`: the interlock check, then the state and its pin. */
    method SetRelayState(idx: nat, st: int) returns (ok: bool)
      requires Valid() && idx < |logical|
      modifies this
      ensures Valid() && (Snapshot(), ok) == SetState(old(Snapshot()), idx, st)
      decreases if st == ON then 1 else 0, 1
    {
      ok := CheckInterlock(idx, st);
      if !ok {
        return false;
      }
      logical := logical[idx := st];
      UpdatePhysicalOutput(idx);
    }

    /** `_set_state_all`: one request per listed relay, refusals ignored. */
    method SetStateAll(st: int, ids: seq<nat>)
      requires Valid() && forall m :: 0 <= m < |ids| ==> ids[m] < |pins|
      modifies this
      ensures Valid() && Snapshot() == SetAll(old(Snapshot()), st, ids)
    {
      var i := 0;
      while i < |ids|
        invariant 0 <= i <= |ids| && Valid()
        invariant Snapshot() == SetAll(old(Snapshot()), st, ids[..i])
      {
        assert ids[..i + 1][..i] == ids[..i];
        var _ := SetRelayState(ids[i], st);
        i := i + 1;
      }
      assert ids[..i] == ids;
    }

    /** The `state` setter given a list: a list of the wrong length is
        refused before anything changes. */
    method SetStates(ids: seq<nat>, vals: seq<int>) returns (ok: bool)
      requires Valid() && forall m :: 0 <= m < |ids| ==> ids[m] < |pins|
      modifies this
      ensures Valid() && ok == (|vals| == |ids|)
      ensures ok ==> Snapshot() == SetEach(old(Snapshot()), ids, vals)
      ensures !ok ==> Snapshot() == old(Snapshot())
    {
      if |vals| != |ids| {
        return false;
      }
      var i := 0;
      while i < |ids|
        invariant 0 <= i <= |ids| && Valid()
        invariant Snapshot() == SetEach(old(Snapshot()), ids[..i], vals[..i])
      {
        assert ids[..i + 1][..i] == ids[..i] && vals[..i + 1][..i] == vals[..i];
        var _ := SetRelayState(ids[i], vals[i]);
        i := i + 1;
      }
      assert ids[..i] == ids && vals[..i] == vals;
      return true;
    }

    /** `toggle`: every listed relay is asked for the opposite of its
        current state, one after the other. */
    method Toggle(ids: seq<nat>)
      requires Valid() && forall m :: 0 <= m < |ids| ==> ids[m] < |pins|
      modifies this
      ensures Valid() && Snapshot() == SetEach(old(Snapshot()), ids, Flipped(old(Snapshot()), ids))
    {
      var lg := logical;
      var cur := seq(|ids|, m requires 0 <= m < |ids| => lg[ids[m]]);
      var flipped := seq(|ids|, m requires 0 <= m < |ids| => if cur[m] == ON then OFF else ON);
      assert flipped == Flipped(Snapshot(), ids);
      var _ := SetStates(ids, flipped);
    }

    /** The `contact_type` setter: each listed relay's pin is rewritten. */
    method SetContactTypeAll(ct: bool, ids: seq<nat>)
      requires Valid() && forall m :: 0 <= m < |ids| ==> ids[m] < |pins|
      modifies this
      ensures Valid() && logical == old(logical) && groups == old(groups) && autoChange == old(autoChange)
      ensures forall j :: 0 <= j < |pins| ==> contact[j] == if j in ids then ct else old(contact)[j]
    {
      var i := 0;
      while i < |ids|
        invariant 0 <= i <= |ids| && Valid()
        invariant logical == old(logical) && groups == old(groups) && autoChange == old(autoChange)
        invariant forall j :: 0 <= j < |pins| ==> contact[j] == if j in ids[..i] then ct else old(contact)[j]
      {
        assert forall j :: j in ids[..i + 1] <==> j in ids[..i] || j == ids[i] by {
          assert ids[..i + 1] == ids[..i] + [ids[i]];
        }
        contact := contact[ids[i] := ct];
        UpdatePhysicalOutput(ids[i]);
        i := i + 1;
      }
      assert ids[..i] == ids;
    }

    /** The `interlock_group` setter. States are not checked against the
        new group. */
    method SetInterlockGroupAll(g: Option<string>, ids: seq<nat>)
      requires Valid() && forall m :: 0 <= m < |ids| ==> ids[m] < |pins|
      modifies this
      ensures Valid() && logical == old(logical) && contact == old(contact) && outputs == old(outputs)
      ensures autoChange == old(autoChange)
      ensures forall j :: 0 <= j < |pins| ==> groups[j] == if j in ids then g else old(groups)[j]
    {
      var i := 0;
      while i < |ids|
        invariant 0 <= i <= |ids| && Valid()
        invariant logical == old(logical) && contact == old(contact) && outputs == old(outputs)
        invariant autoChange == old(autoChange)
        invariant forall j :: 0 <= j < |pins| ==> groups[j] == if j in ids[..i] then g else old(groups)[j]
      {
        assert forall j :: j in ids[..i + 1] <==> j in ids[..i] || j == ids[i] by {
          assert ids[..i + 1] == ids[..i] + [ids[i]];
        }
        groups := groups[ids[i] := g];
        i := i + 1;
      }
      assert ids[..i] == ids;
    }

    /** `emergency_stop`. */
    method EmergencyStop(ids: seq<nat>)
      requires Valid() && forall m :: 0 <= m < |ids| ==> ids[m] < |pins|
      modifies this
      ensures Valid() && Snapshot() == Stopped(old(Snapshot()), ids)
    {
      SetInterlockGroupAll(None, ids);
      assert Snapshot() == ClearGroups(old(Snapshot()), ids);
      SetStateAll(OFF, ids);
    }
  }

  /** One more index of the switch-off. */
  lemma SwitchOffStep(k: Bank, idx: nat, g: string, i: nat)
    requires Consistent(k) && i < |k.logical|
    ensures var s := SwitchOffUpTo(k, idx, g, i);
      Consistent(s) && s.logical[i] == k.logical[i] && s.groups[i] == k.groups[i]
      && SwitchOffUpTo(k, idx, g, i + 1) == if Rival(k, idx, g, i) then Put(s, i, OFF) else s
  {
    var s := SwitchOffUpTo(k, idx, g, i);
    var s1 := SwitchOffUpTo(k, idx, g, i + 1);
    if Rival(k, idx, g, i) {
      assert s1.logical == Put(s, i, OFF).logical;
      assert s1.outputs == Put(s, i, OFF).outputs;
    } else {
      assert s1.logical == s.logical;
      assert s1.outputs == s.outputs;
    }
  }
}
