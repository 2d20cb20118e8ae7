/** The driver's device objects and their dispatch handlers, each handler atomic. Every handler
    changes the objects exactly as its event changes the bus in module Lifecycle. */
module Devices {
  import opened Lifecycle
  import opened Sequences

  class Pdo {
    ghost const id: nat
    const name: string
    const isDefault: bool
    var pnp: Pnp
    var previous: Pnp
    var missing: bool
    var eject: bool
    ghost var balance: int
    ghost var skips: nat

    ghost function View(): Child
      reads this
    {
      Child(id, name, isDefault, pnp, previous, missing, eject, balance, skips)
    }

    /** PdoCreate up to the point where the PDO is added to its FDO. */
    constructor (ghost id: nat, name: string, isDefault: bool)
      ensures View() == NewChild(id, name, D3).(isDefault := isDefault)
    {
      this.id, this.name, this.isDefault := id, name, isDefault;
      pnp, previous, missing, eject := Present, Invalid, false, false;
      balance, skips := 0, 0;
    }

    /** __PdoSetDevicePnpState; its assertion is the precondition. */
    method SetPnpState(state: Pnp)
      requires pnp == Deleted ==> state == Deleted
      modifies this
      ensures View() == old(View()).Set(state)
    {
      previous := pnp;
      pnp := state;
    }

    /** __PdoRestoreDevicePnpState. */
    method RestorePnpState(state: Pnp)
      modifies this
      ensures View() == old(View()).Restore(state)
    {
      if pnp == state {
        pnp := previous;
      }
    }

    /** PdoSetMissing. */
    method SetMissing()
      modifies this
      ensures View() == old(View()).Lost()
    {
      missing := true;
    }

    /** PdoResume and PdoSuspend: one Acquire, one Release on the console ABI. */
    method Resume()
      modifies this
      ensures View() == old(View()).Acquired()
    {
      balance := balance + 1;
    }

    method Suspend()
      modifies this
      ensures View() == old(View()).Released()
    {
      balance := balance - 1;
    }

    /** The body of FdoSurpriseRemoval's loop. */
    method Lose()
      modifies this
      ensures LoseFate(old(View())) == Stays(View())
    {
      if !missing {
        SetMissing();
      }
    }

    /** __FdoEnumerate's inner loop: takes the first entry with this name. */
    method Take(devices: array<Device>) returns (found: bool)
      modifies devices
      ensures var i := Find(old(devices[..]), name);
              && found == (i < devices.Length)
              && devices[..] == if found then old(devices[..])[i := Device(name, false)] else old(devices[..])
    {
      for k := 0 to devices.Length
        invariant devices[..] == old(devices[..])
        invariant forall j | 0 <= j < k :: devices[j] != Device(name, true)
      {
        if devices[k].listed && devices[k].name == name {
          FindIsFirst(devices[..], name, k);
          devices[k] := Device(name, false);
          return true;
        }
      }
      found := false;
    }

    /** __FdoEnumerate's body for one child, short of PdoDestroy; `asks` says that
        IoRequestDeviceEject is called. */
    method Reconcile(devices: array<Device>) returns (gone: bool, invalidate: bool, asks: bool)
      modifies this, devices
      ensures var c, open := old(View()), old(devices[..]);
              && devices[..] == Strike(open, c)
              && gone == ScanFate(c, Found(open, c), D3).Destroyed?
              && View() == (if gone then c.Lost().Set(Deleted) else ScanFate(c, Found(open, c), D3).child)
              && invalidate == (!gone && View() != c)
              && asks == Asks(c)
      ensures var live := !isDefault && old(pnp) != Deleted && !old(missing);
              var vanished := live && !old(eject) && Device(name, true) !in old(devices[..]);
              && missing == (old(missing) || vanished) && eject == old(eject)
              && pnp == (if vanished && old(pnp) == Present then Deleted else old(pnp))
              && gone == (vanished && old(pnp) == Present) && invalidate == (vanished && old(pnp) != Present)
              && asks == (live && old(eject))
    {
      gone, invalidate, asks := false, false, false;
      if isDefault || pnp == Deleted {
        return;
      }
      var found := Take(devices);
      if missing {
        return;
      }
      if eject {
        asks := true;
      } else if !found {
        SetMissing();
        if pnp == Present {
          SetPnpState(Deleted);
          gone := true;
        } else {
          invalidate := true;
        }
      }
    }

    /** The handlers of PdoDispatchPnp short of PdoDestroy; deleted devices refuse. */
    method Handle(minor: Minor) returns (gone: bool)
      modifies this
      ensures gone == Handled(old(View()), minor, D3).Destroyed?
      ensures View() == Handled(old(View()), minor, D3).child
    {
      gone := false;
      if pnp == Deleted {
        return;
      }
      match minor
      case Start(ok) =>
        if ok {
          SetPnpState(Started);
        }
      case QueryStop => SetPnpState(StopPending);
      case CancelStop => RestorePnpState(StopPending);
      case Stop => SetPnpState(Stopped);
      case QueryRemove => SetPnpState(RemovePending);
      case CancelRemove =>
        eject := false;
        RestorePnpState(RemovePending);
      case SurpriseRemoval => SetPnpState(SurpriseRemovePending);
      case Remove =>
        if missing {
          gone := pnp == SurpriseRemovePending;
          SetPnpState(Deleted);
        } else {
          SetPnpState(Enumerated);
        }
      case Eject =>
        SetPnpState(Deleted);
        SetMissing();
    }

    /** FdoRemoveDevice's loop body short of PdoDestroy. */
    method GoAway() returns (kept: bool)
      modifies this
      ensures kept == (old(pnp) == SurpriseRemovePending)
      ensures View() == if kept then old(View()).Lost() else old(View()).Lost().Set(Deleted)
    {
      if !missing {
        SetMissing();
      }
      kept := pnp == SurpriseRemovePending;
      if !kept {
        SetPnpState(Deleted);
      }
    }

    /** The body of FdoQueryDeviceRelations' first loop; tells whether the PDO is reported. */
    method Report() returns (reported: bool)
      modifies this
      ensures ReportFate(old(View())) == Stays(View()) && reported == !missing
    {
      if missing {
        return false;
      }
      if pnp == Present {
        SetPnpState(Enumerated);
      }
      reported := true;
    }

    /** The body of FdoD0ToD3's loop. */
    method PowerDown()
      modifies this
      ensures DownFate(old(View())) == Stays(View())
    {
      if pnp == Deleted || missing {
        skips := skips + 1;
      } else {
        Suspend();
      }
    }
  }

  predicate Within(pdos: seq<Pdo>, others: seq<Pdo>) {
    forall p | p in pdos :: p in others
  }

  class Fdo {
    var pnp: Pnp
    var previous: Pnp
    var power: Power
    var list: seq<Pdo>
    var references: int
    ghost var children: seq<Child>
    ghost var removed: bool
    ghost var nextId: nat
    ghost var destroyed: seq<Child>
    ghost var over: bool

    ghost function View(): Bus
      reads this
    {
      Bus(pnp, previous, power, children, references, removed, nextId, destroyed, over)
    }

    /** `children` is what the listed PDOs say. */
    ghost predicate Linked()
      reads this, list
    {
      NoRepeats(list) && |list| == |children| && forall k | 0 <= k < |list| :: list[k].View() == children[k]
    }

    ghost predicate Valid()
      reads this, list
    {
      Linked() && Inv(View())
    }

    /** FdoCreate: the default console is added at once. */
    constructor ()
      ensures Valid() && View() == Created() && fresh(list)
    {
      pnp, previous, power, list, references := Added, Invalid, D3, [], 1;
      children, removed, nextId, destroyed, over := [], false, 1, [], false;
      new;
      var pdo := new Pdo(0, "0", true);
      var ok := AddPhysicalDeviceObject(pdo, false);
      assert View() == Created();
      CreatedOk();
    }

    // ----- Loops over the child list -----

    /** The body of FdoD0ToD3's loop. */
    method SuspendChild(i: nat)
      requires Linked() && i < |list|
      modifies this`children, list[i]
      ensures Linked() && View() == OnlyOne(old(View()), i, DownFate(old(View()).children[i]))
    {
      list[i].PowerDown();
      children := children[i := list[i].View()];
    }

    /** The body of FdoD3ToD0's loop. */
    method ResumeChild(i: nat)
      requires Linked() && i < |list|
      modifies this`children, list[i]
      ensures Linked() && View() == OnlyOne(old(View()), i, UpFate(old(View()).children[i]))
    {
      list[i].Resume();
      children := children[i := list[i].View()];
    }

    /** The body of FdoSurpriseRemoval's loop. */
    method LoseChild(i: nat)
      requires Linked() && i < |list|
      modifies this`children, list[i]
      ensures Linked() && View() == OnlyOne(old(View()), i, LoseFate(old(View()).children[i]))
    {
      list[i].Lose();
      children := children[i := list[i].View()];
    }

    /** FdoD0ToD3. */
    method D0ToD3()
      requires Linked() && power == D0
      modifies this`power, this`children, list
      ensures Linked() && View() == PowerDown(old(View()))
    {
      SuspendChildren();
      power := D3;
    }

    method SuspendChildren()
      requires Linked()
      modifies this`children, list
      ensures Linked() && View() == After(old(View()), DownFate)
    {
      ghost var goal := After(View(), DownFate);
      MidwayStart(View(), DownFate);
      for i := 0 to |list|
        invariant Linked() && Midway(View(), i, DownFate, goal)
      {
        MidwayStep(View(), i, DownFate, goal);
        SuspendChild(i);
      }
      MidwayEnd(View(), |list|, DownFate, goal);
    }

    /** FdoD3ToD0: nothing happens unless suspend, store and the lower layers cooperate. */
    method D3ToD0(ok: bool)
      requires Linked() && power == D3
      modifies this`power, this`children, list
      ensures Linked() && View() == if ok then PowerUp(old(View())) else old(View())
    {
      if ok {
        power := D0;
        ResumeChildren();
      }
    }

    method ResumeChildren()
      requires Linked()
      modifies this`children, list
      ensures Linked() && View() == After(old(View()), UpFate)
    {
      ghost var goal := After(View(), UpFate);
      MidwayStart(View(), UpFate);
      for i := 0 to |list|
        invariant Linked() && Midway(View(), i, UpFate, goal)
      {
        MidwayStep(View(), i, UpFate, goal);
        ResumeChild(i);
      }
      MidwayEnd(View(), |list|, UpFate, goal);
    }

    /** FdoAddPhysicalDeviceObject; in D0 the child must resume first. */
    method AddPhysicalDeviceObject(pdo: Pdo, resumes: bool) returns (ok: bool)
      requires Linked() && pdo !in list
      modifies this`list, this`references, this`children, pdo
      ensures ok == (power == D3 || resumes)
      ensures !ok ==> unchanged(this) && unchanged(pdo)
      ensures ok ==> Linked() && list == old(list) + [pdo]
      ensures ok ==>
                var c := if power == D0 then old(pdo.View()).Acquired() else old(pdo.View());
                View() == old(View()).(children := old(children) + [c], references := old(references) + 1)
    {
      if power != D3 {
        if !resumes {
          return false;
        }
        pdo.Resume();
      }
      list := list + [pdo];
      references := references + 1;
      children := children + [pdo.View()];
      ok := true;
    }

    /** FdoRemovePhysicalDeviceObject for the child at `i`, whose own state may be ahead of
        `children`. */
    method RemovePhysicalDeviceObject(i: nat)
      requires i < |list| == |children| && NoRepeats(list)
      requires forall k | 0 <= k < |list| && k != i :: list[k].View() == children[k]
      modifies this`list, this`references, this`children, list[i]
      ensures Linked() && list == old(list)[..i] + old(list)[i + 1..]
      ensures old(list)[i].View() == Final(old(list[i].View()), power)
      ensures references == old(references) - 1 && children == old(children)[..i] + old(children)[i + 1..]
    {
      if power != D3 {
        list[i].Suspend();
      }
      list := list[..i] + list[i + 1..];
      references := references - 1;
      children := children[..i] + children[i + 1..];
    }

    /** PdoDestroy of the child at `i`, up to its freeing; its assertions are the precondition. */
    method Destroy(i: nat)
      requires i < |list| == |children| && NoRepeats(list)
      requires forall k | 0 <= k < |list| && k != i :: list[k].View() == children[k]
      requires list[i].pnp == Deleted && list[i].missing
      modifies this`list, this`references, this`children, this`destroyed, list[i]
      ensures Linked() && Within(list, old(list)) && |list| == old(|list|) - 1
      ensures View() == OnlyOne(old(View()), i, Destroyed(Final(old(list[i].View()), power)))
    {
      ghost var p := list[i];
      RemovePhysicalDeviceObject(i);
      destroyed := destroyed + [p.View()];
    }

    // ----- PnP handlers of the FDO -----

    method SetPnpState(state: Pnp)
      requires pnp == Deleted ==> state == Deleted
      modifies this`pnp, this`previous
      ensures View() == old(View()).Set(state)
    {
      previous := pnp;
      pnp := state;
    }

    method RestorePnpState(state: Pnp)
      modifies this`pnp
      ensures View() == old(View()).Restore(state)
    {
      if pnp == state {
        pnp := previous;
      }
    }

    /** FdoStartDevice. */
    method StartDevice(ok: bool)
      requires Linked() && Enabled(View(), FdoStart(ok))
      modifies this, list
      ensures Linked() && View() == Next(old(View()), FdoStart(ok))
    {
      D3ToD0(ok);
      if ok {
        SetPnpState(Started);
      }
    }

    /** FdoStopDevice. */
    method StopDevice()
      requires Linked() && Enabled(View(), FdoStop)
      modifies this, list
      ensures Linked() && View() == Next(old(View()), FdoStop)
    {
      if power == D0 {
        D0ToD3();
      }
      SetPnpState(Stopped);
    }

    /** FdoQueryStopDevice, FdoCancelStopDevice, FdoQueryRemoveDevice, FdoCancelRemoveDevice. */
    method QueryOrCancel(e: Event)
      requires e in {FdoQueryStop, FdoCancelStop, FdoQueryRemove, FdoCancelRemove} && Enabled(View(), e)
      modifies this`pnp, this`previous
      ensures View() == Next(old(View()), e)
    {
      match e
      case FdoQueryStop => SetPnpState(StopPending);
      case FdoCancelStop => RestorePnpState(StopPending);
      case FdoQueryRemove => SetPnpState(RemovePending);
      case FdoCancelRemove => RestorePnpState(RemovePending);
    }

    /** FdoSurpriseRemoval. */
    method SurpriseRemoval()
      requires Linked() && Enabled(View(), FdoSurpriseRemoval)
      modifies this`pnp, this`previous, this`children, list
      ensures Linked() && View() == Next(old(View()), FdoSurpriseRemoval)
    {
      SetPnpState(SurpriseRemovePending);
      ghost var goal := After(View(), LoseFate);
      MidwayStart(View(), LoseFate);
      for i := 0 to |list|
        invariant Linked() && Midway(View(), i, LoseFate, goal)
      {
        MidwayStep(View(), i, LoseFate, goal);
        LoseChild(i);
      }
      MidwayEnd(View(), |list|, LoseFate, goal);
    }

    /** FdoDevicePower's set-power request. */
    method SetDevicePower(target: Power, ok: bool)
      requires Linked() && Enabled(View(), FdoPower(target, ok))
      modifies this, list
      ensures Linked() && View() == Next(old(View()), FdoPower(target, ok))
    {
      if target == power {
        return;
      }
      if target == D0 {
        D3ToD0(ok);
      } else {
        D0ToD3();
      }
    }

    /** One turn of FdoRemoveDevice's loop. */
    method RemoveChild(i: nat) returns (kept: bool)
      requires Linked() && i < |list|
      modifies this`list, this`references, this`children, this`destroyed, list[i]
      ensures Linked() && Within(list, old(list))
      ensures var f := Removed(old(View()).children[i], power);
              kept == f.Stays? && View() == OnlyOne(old(View()), i, f)
    {
      kept := list[i].GoAway();
      if kept {
        children := children[i := list[i].View()];
      } else {
        Destroy(i);
      }
    }

    /** The loop of FdoRemoveDevice: children awaiting their own removal stay listed, every other
        one is destroyed. */
    method RemoveChildren()
      requires Linked()
      modifies this`list, this`references, this`children, this`destroyed, list
      ensures Linked() && Within(list, old(list)) && View() == After(old(View()), RemoveFate(power))
    {
      ghost var fate := RemoveFate(power);
      ghost var goal := After(View(), fate);
      MidwayStart(View(), fate);
      var i := 0;
      while i < |list|
        invariant i <= |list| && Linked() && Within(list, old(list))
        invariant Midway(View(), i, fate, goal)
        decreases |list| - i
      {
        assert list[i] in old(list);
        MidwayStep(View(), i, fate, goal);
        assert fate(children[i]) == Removed(children[i], power);
        var kept := RemoveChild(i);
        if kept {
          i := i + 1;
        }
      }
      MidwayEnd(View(), |list|, fate, goal);
    }

    method RemoveStarted()
      requires Linked()
      modifies this, list
      ensures Linked()
      ensures var b := After(old(View()), RemoveFate(old(power)));
              View() == if b.power == D0 then PowerDown(b) else b
    {
      RemoveChildren();
      assert forall k | 0 <= k < |list| :: list[k] in old(list);
      if power == D0 {
        D0ToD3();
      }
    }

    /** FdoRemoveDevice; the FDO itself goes with its last reference. */
    method RemoveDevice()
      requires Linked() && Enabled(View(), FdoRemove)
      modifies this, list
      ensures Linked() && View() == Next(old(View()), FdoRemove)
    {
      if previous == Started {
        RemoveStarted();
      }
      SetPnpState(Deleted);
      removed := true;
      references := references - 1;
      over := references == 0;
    }

    // ----- FdoQueryDeviceRelations -----

    /** The body of the first loop; `was` is what the children were when it began. */
    method ReportChild(i: nat, relations: seq<Pdo>, ghost was: seq<Child>) returns (relations': seq<Pdo>)
      requires Linked() && i < |list| && Reporting(relations, list, was, children, i)
      modifies this`children, list[i]
      ensures Linked() && View() == OnlyOne(old(View()), i, ReportFate(old(View()).children[i]))
      ensures Reporting(relations', list, was, children, i + 1)
    {
      ghost var now := children;
      var reported := list[i].Report();
      relations' := if reported then relations + [list[i]] else relations;
      children := children[i := list[i].View()];
      ReportStep(relations, list, was, now, i, list[i].View());
    }

    method ReportChildren() returns (relations: seq<Pdo>)
      requires Linked()
      modifies this`children, list
      ensures Linked() && View() == After(old(View()), ReportFate)
      ensures relations == Visible(list, old(View()).children)
    {
      ghost var goal, was := After(View(), ReportFate), children;
      MidwayStart(View(), ReportFate);
      relations := [];
      for i := 0 to |list|
        invariant Linked() && Midway(View(), i, ReportFate, goal)
        invariant Reporting(relations, list, was, children, i)
      {
        MidwayStep(View(), i, ReportFate, goal);
        relations := ReportChild(i, relations, was);
      }
      ReportEnd(relations, list, was, children);
      MidwayEnd(View(), |list|, ReportFate, goal);
    }

    method ReapChild(i: nat) returns (kept: bool)
      requires Linked() && i < |list|
      modifies this`list, this`references, this`children, this`destroyed, list[i]
      ensures Linked() && Within(list, old(list))
      ensures var f := Reaped(old(View()).children[i], power);
              kept == f.Stays? && View() == OnlyOne(old(View()), i, f)
    {
      kept := list[i].pnp != Deleted || !list[i].missing;
      if kept {
        assert children[i := children[i]] == children;
      } else {
        Destroy(i);
      }
    }

    method ReapChildren()
      requires Linked()
      modifies this`list, this`references, this`children, this`destroyed, list
      ensures Linked() && Within(list, old(list)) && View() == After(old(View()), ReapFate(power))
    {
      ghost var fate := ReapFate(power);
      ghost var goal := After(View(), fate);
      MidwayStart(View(), fate);
      var i := 0;
      while i < |list|
        invariant i <= |list| && Linked() && Within(list, old(list))
        invariant Midway(View(), i, fate, goal)
        decreases |list| - i
      {
        assert list[i] in old(list);
        MidwayStep(View(), i, fate, goal);
        assert fate(children[i]) == Reaped(children[i], power);
        var kept := ReapChild(i);
        if kept {
          i := i + 1;
        }
      }
      MidwayEnd(View(), |list|, fate, goal);
    }

    /** FdoQueryDeviceRelations for bus relations. */
    method QueryDeviceRelations(memoryOk: bool, lowerOk: bool) returns (relations: seq<Pdo>)
      requires Linked() && Enabled(View(), FdoRelations(memoryOk, lowerOk))
      modifies this, list
      ensures Linked() && View() == Next(old(View()), FdoRelations(memoryOk, lowerOk))
      ensures relations == if memoryOk then old(Visible(list, View().children)) else []
    {
      if !memoryOk {
        return [];
      }
      relations := ReportChildren();
      if lowerOk {
        ReapChildren();
      }
    }

    // ----- FdoScan and __FdoEnumerate -----

    /** FdoScan's filter; strncmp runs over the length of the device's name. */
    static method DropUnsupported(devices: array<Device>, unsupported: seq<string>)
      modifies devices
      ensures forall k | 0 <= k < devices.Length ::
                devices[k] == Supported(old(devices[k]), unsupported)
    {
      for i := 0 to devices.Length
        invariant forall k | i <= k < devices.Length :: devices[k] == old(devices[k])
        invariant forall k | 0 <= k < i :: devices[k] == Supported(old(devices[k]), unsupported)
      {
        var supported := true;
        for entry := 0 to |unsupported|
          invariant supported
          invariant forall e | 0 <= e < entry :: !(devices[i].name <= unsupported[e])
        {
          if devices[i].name <= unsupported[entry] {
            supported := false;
            break;
          }
        }
        if !supported {
          devices[i] := devices[i].(listed := false);
        }
      }
    }

    /** The first loop's body. */
    method ScanChild(i: nat, devices: array<Device>) returns (kept: bool, invalidate: bool, asks: bool)
      requires Linked() && i < |list|
      modifies this`list, this`references, this`children, this`destroyed, list[i], devices
      ensures Linked() && Within(list, old(list))
      ensures var c, open := old(View()).children[i], old(devices[..]);
              var f := ScanFate(c, Found(open, c), power);
              && devices[..] == Strike(open, c) && kept == f.Stays? && invalidate == (kept && f.child != c)
              && View() == OnlyOne(old(View()), i, f) && asks == Asks(c)
    {
      var gone;
      gone, invalidate, asks := list[i].Reconcile(devices);
      kept := !gone;
      if gone {
        Destroy(i);
      } else {
        children := children[i := list[i].View()];
      }
    }

    /** One turn of the first loop; `asked` are the children whose ejection it requested. */
    method ScanTurn(devices: array<Device>, i: nat, lost: bool, asked: seq<string>, ghost goal: ScanGoal)
      returns (i': nat, lost': bool, asked': seq<string>)
      requires Linked() && i < |list| && Scanning(View(), i, devices[..], lost, asked, goal)
      modifies this`list, this`references, this`children, this`destroyed, list[i], devices
      ensures Linked() && Within(list, old(list)) && i <= i' <= |list| && |list| - i' < old(|list|) - i
      ensures Scanning(View(), i', devices[..], lost', asked', goal)
    {
      var name := list[i].name;
      ScanStep(View(), i, devices[..], lost, asked, goal);
      var kept, invalidate, asks := ScanChild(i, devices);
      lost' := lost || invalidate;
      asked' := if asks then asked + [name] else asked;
      i' := if kept then i + 1 else i;
    }

    /** The first loop. */
    method ScanList(devices: array<Device>) returns (lost: bool, asked: seq<string>)
      requires Linked()
      modifies this`list, this`references, this`children, this`destroyed, list, devices
      ensures Linked() && Within(list, old(list))
      ensures View() == AfterScanLoop(old(View()), old(devices[..]))
      ensures var s := ScanChildren(old(View()).children, old(devices[..]), power);
              devices[..] == s.open && lost == s.lost
      ensures asked == Asked(old(View()).children)
    {
      ghost var goal := GoalOf(View(), devices[..]);
      ScanStart(View(), devices[..]);
      lost, asked := false, [];
      var i := 0;
      while i < |list|
        invariant 0 <= i <= |list| && Linked() && Within(list, old(list))
        invariant Scanning(View(), i, devices[..], lost, asked, goal)
        decreases |list| - i
      {
        assert list[i] in old(list);
        i, lost, asked := ScanTurn(devices, i, lost, asked, goal);
      }
      ScanEnd(View(), |list|, devices[..], lost, asked, goal);
    }

    /** PdoCreate. The steps up to the ABI may fail, the child may fail to resume, and an eject
        request that comes before it is done takes the new PDO out again. */
    method CreateChild(name: string, prepared: bool, resumes: bool, ejected: bool) returns (ok: bool)
      requires Linked()
      modifies this`list, this`references, this`children, this`nextId
      ensures Linked() && forall p | p in list :: p in old(list) || fresh(p)
      ensures ok == (prepared && (power == D3 || resumes) && !ejected)
      ensures View() == if ok then AddChild(old(View()), name) else old(View())
    {
      ok := false;
      if prepared {
        var pdo := new Pdo(nextId, name, false);
        ok := InsertChild(pdo, resumes, ejected);
        if ok {
          nextId := nextId + 1;
        }
      }
    }

    /** Its last two steps. */
    method InsertChild(pdo: Pdo, resumes: bool, ejected: bool) returns (ok: bool)
      requires Linked() && pdo !in list && pdo.View() == NewChild(pdo.id, pdo.name, D3)
      modifies this`list, this`references, this`children, pdo
      ensures Linked() && ok == ((power == D3 || resumes) && !ejected)
      ensures list == if ok then old(list) + [pdo] else old(list)
      ensures View() == if !ok then old(View())
                        else old(View()).(children := old(children) + [NewChild(pdo.id, pdo.name, power)],
                                          references := old(references) + 1)
    {
      ok := AddPhysicalDeviceObject(pdo, resumes);
      if ok && ejected {
        AppendedAndCut(old(list), pdo);
        AppendedAndCut(old(children), children[|children| - 1]);
        RemovePhysicalDeviceObject(|list| - 1);
        ok := false;
      }
    }

    /** __FdoEnumerate, called with the directory's entries; the registry may switch it off. */
    method Enumerate(enabled: bool, devices: array<Device>)
      returns (needInvalidate: bool, asked: seq<string>, ghost works: seq<bool>)
      requires Linked() && pnp == Started && !over
      modifies this, list, devices
      ensures Linked()
      ensures !enabled ==> View() == old(View()) && !needInvalidate && asked == []
      ensures enabled ==>
                var e := Scan(old(devices[..]), works);
                && Enabled(old(View()), e) && View() == Next(old(View()), e)
                && needInvalidate == NeedInvalidate(old(View()), old(devices[..]), works)
                && asked == Asked(old(View()).children)
    {
      needInvalidate, asked, works := false, [], [];
      if enabled {
        var lost, created;
        lost, asked := ScanList(devices);
        created, works := CreateWanted(devices);
        needInvalidate := lost || created;
      }
    }

    /** One turn of FdoScan, given the names in the store directory: only a started bus is
        scanned, and unsupported names are dropped first. */
    method ScanDirectory(enabled: bool, names: seq<string>, unsupported: seq<string>)
      returns (needInvalidate: bool, asked: seq<string>, ghost works: seq<bool>)
      requires Linked() && !over
      modifies this, list
      ensures Linked()
      ensures old(pnp) != Started || !enabled ==> View() == old(View()) && !needInvalidate && asked == []
      ensures old(pnp) == Started && enabled ==>
                var devices := Directory(names, unsupported);
                && Enabled(old(View()), Scan(devices, works)) && View() == Next(old(View()), Scan(devices, works))
                && needInvalidate == NeedInvalidate(old(View()), devices, works)
                && asked == Asked(old(View()).children)
    {
      if pnp != Started {
        return false, [], [];
      }
      var devices := new Device[|names|](k requires 0 <= k < |names| => Device(names[k], names[k] != ""));
      DropUnsupported(devices, unsupported);
      assert devices[..] == Directory(names, unsupported);
      needInvalidate, asked, works := Enumerate(enabled, devices);
    }

    /** The second loop. */
    method CreateWanted(devices: array<Device>) returns (created: bool, ghost works: seq<bool>)
      requires Linked()
      modifies this`list, this`references, this`children, this`nextId
      ensures Linked() && created == (true in works) && |works| == |Wanted(devices[..])|
      ensures View() == CreateAll(old(View()), Wanted(devices[..]), works)
    {
      ghost var bus := View();
      created, works := false, [];
      for j := 0 to devices.Length
        invariant Linked() && forall p | p in list :: p in old(list) || fresh(p)
        invariant created == (true in works) && |works| == |Wanted(devices[..j])|
        invariant View() == CreateAll(bus, Wanted(devices[..j]), works)
      {
        WantedSnoc(devices[..], j);
        if devices[j].listed {
          var prepared: bool, resumes: bool, ejected: bool := *, *, *;
          var ok := CreateChild(devices[j].name, prepared, resumes, ejected);
          CreateAllSnoc(bus, Wanted(devices[..j]), works, devices[j].name, ok);
          works := works + [ok];
          created := created || ok;
        }
      }
      assert devices[..devices.Length] == devices[..];
    }

    // ----- Handlers of a child -----

    /** PdoDispatchPnp for the child at `i`, through FdoReleaseMutex. */
    method DispatchChild(i: nat, minor: Minor)
      requires Valid() && !over && i < |list|
      modifies this, list
      ensures Linked() && View() == Next(old(View()), PdoPnp(old(list)[i].id, minor))
    {
      ChildEvent(View(), i, minor);
      HandleChild(i, minor);
      over := references == 0;
    }

    method HandleChild(i: nat, minor: Minor)
      requires Linked() && i < |list|
      modifies this`list, this`references, this`children, this`destroyed, list[i]
      ensures Linked() && View() == OnlyOne(old(View()), i, Handled(old(View()).children[i], minor, power))
    {
      var gone := list[i].Handle(minor);
      if gone {
        Destroy(i);
      } else {
        children := children[i := list[i].View()];
      }
    }

    /** FrontendEject marks the PDO for ejection. */
    method RequestEject(i: nat)
      requires Valid() && !over && i < |list|
      modifies this`children, list[i]
      ensures Linked() && View() == Next(old(View()), Event.RequestEject(list[i].id))
    {
      OneTurn(View(), i, EjectFate, EjectFate(View().children[i]));
      list[i].eject := true;
      children := children[i := list[i].View()];
    }
  }

  /** Begins some entry of the unsupported list. */
  predicate Unsupported(name: string, unsupported: seq<string>) {
    exists e | 0 <= e < |unsupported| :: name <= unsupported[e]
  }

  /** What the filter makes of an entry. */
  function Supported(d: Device, unsupported: seq<string>): Device {
    if Unsupported(d.name, unsupported) then d.(listed := false) else d
  }

  /** The directory as the scan gets it; a name of length zero does not count as listed. */
  function Directory(names: seq<string>, unsupported: seq<string>): (devices: seq<Device>)
    ensures |devices| == |names|
    ensures forall k | 0 <= k < |names| ::
              devices[k] == Device(names[k], names[k] != "" && !Unsupported(names[k], unsupported))
  {
    seq(|names|, k requires 0 <= k < |names| => Supported(Device(names[k], names[k] != ""), unsupported))
  }

  /** The scan attempts a creation for exactly the supported names in the directory that no
      counting child has, each once. */
  lemma ScanAsksForSupported(b: Bus, names: seq<string>, unsupported: seq<string>)
    requires NoRepeats(names) && DistinctNames(b.children)
    ensures var wanted := ScanWanted(b, Directory(names, unsupported));
            && NoRepeats(wanted)
            && forall name :: name in wanted <==>
                 name in names && name != "" && !Unsupported(name, unsupported) && !Taken(b.children, name)
  {
    var devices := Directory(names, unsupported);
    ScanReconciles(b.children, devices, b.power);
    WantedIsListed(ScanChildren(b.children, devices, b.power).open);
    forall name
      ensures Listed(devices, name) <==> name in names && name != "" && !Unsupported(name, unsupported)
    {
      if Listed(devices, name) {
        var k :| 0 <= k < |devices| && devices[k] == Device(name, true);
        assert names[k] == name;
      }
      if name in names {
        var k :| 0 <= k < |names| && names[k] == name;
        assert devices[k].name == name;
      }
    }
  }

  /** So the filter drops the listed names, and with them exactly the names some listed one
      extends: console 1 goes when only console 10 is listed. */
  lemma UnsupportedIff(name: string, unsupported: seq<string>)
    ensures Unsupported(name, unsupported) <==>
            name in unsupported || exists rest: string :: rest != "" && name + rest in unsupported
    ensures Unsupported("1", ["10"]) && "1" !in ["10"]
  {
    if Unsupported(name, unsupported) && name !in unsupported {
      var e :| 0 <= e < |unsupported| && name <= unsupported[e];
      var rest := unsupported[e][|name|..];
      assert name + rest == unsupported[e] && (rest == "" ==> name + rest == name);
      assert rest != "" && name + rest in unsupported;
    }
    if rest: string :| rest != "" && name + rest in unsupported {
      var e :| 0 <= e < |unsupported| && unsupported[e] == name + rest;
      assert name <= unsupported[e];
    }
    assert "1" <= ["10"][0];
  }

  /** Still there, and asked to eject. */
  predicate Asks(c: Child) {
    Counts(c) && !c.missing && c.eject
  }

  function Asked(children: seq<Child>): seq<string> {
    if children == [] then []
    else (if Asks(children[0]) then [children[0].name] else []) + Asked(children[1..])
  }

  /** Asked are exactly the names of the children with a request that are neither missing, nor
      deleted, nor the default console. */
  lemma {:induction false} AskedByField(children: seq<Child>)
    ensures forall name :: name in Asked(children) <==>
              exists c | c in children :: c.name == name && !c.isDefault && c.pnp != Deleted && !c.missing && c.eject
  {
    if children != [] {
      AskedByField(children[1..]);
      assert children == [children[0]] + children[1..];
    }
  }

  /** The children that FdoQueryDeviceRelations reports. */
  function Visible(pdos: seq<Pdo>, children: seq<Child>): seq<Pdo>
    requires |pdos| == |children|
  {
    if pdos == [] then []
    else
      var n := |pdos| - 1;
      Visible(pdos[..n], children[..n]) + if children[n].missing then [] else [pdos[n]]
  }

  /** Reported are exactly the devices not missing, and in the order of the list. */
  lemma {:induction false} VisibleByField(pdos: seq<Pdo>, children: seq<Child>)
    requires |pdos| == |children|
    ensures forall p :: p in Visible(pdos, children) <==>
              exists k | 0 <= k < |pdos| :: pdos[k] == p && !children[k].missing
  {
    if pdos != [] {
      var n := |pdos| - 1;
      VisibleByField(pdos[..n], children[..n]);
      assert forall k | 0 <= k < n :: pdos[..n][k] == pdos[k] && children[..n][k] == children[k];
    }
  }

  lemma {:induction false} VisibleInOrder(a: seq<Pdo>, b: seq<Pdo>, x: seq<Child>, y: seq<Child>)
    requires |a| == |x| && |b| == |y|
    ensures Visible(a + b, x + y) == Visible(a, x) + Visible(b, y)
    decreases |b|
  {
    if b == [] {
      assert a + b == a && x + y == x && Visible(a, x) + [] == Visible(a, x);
    } else {
      var n := |b| - 1;
      assert (a + b)[..|a| + n] == a + b[..n] && (x + y)[..|a| + n] == x + y[..n];
      VisibleInOrder(a, b[..n], x, y[..n]);
      Assoc(Visible(a, x), Visible(b[..n], y[..n]), if y[n].missing then [] else [b[n]]);
    }
  }

  ghost predicate Reporting(relations: seq<Pdo>, pdos: seq<Pdo>, was: seq<Child>, now: seq<Child>, i: nat) {
    && i <= |pdos| == |was| == |now|
    && was[i..] == now[i..]
    && relations == Visible(pdos[..i], was[..i])
  }

  lemma ReportEnd(relations: seq<Pdo>, pdos: seq<Pdo>, was: seq<Child>, now: seq<Child>)
    requires Reporting(relations, pdos, was, now, |pdos|)
    ensures relations == Visible(pdos, was)
  {
    assert pdos[..|pdos|] == pdos && was[..|pdos|] == was;
  }

  lemma ReportStep(relations: seq<Pdo>, pdos: seq<Pdo>, was: seq<Child>, now: seq<Child>, i: nat, c: Child)
    requires Reporting(relations, pdos, was, now, i) && i < |pdos|
    ensures Reporting(if now[i].missing then relations else relations + [pdos[i]], pdos, was, now[i := c], i + 1)
  {
    VisibleSnoc(pdos, was, i);
    assert was[i] == was[i..][0] && now[i] == now[i..][0];
    assert was[i + 1..] == was[i..][1..] && now[i := c][i + 1..] == now[i..][1..];
  }

  lemma VisibleSnoc(pdos: seq<Pdo>, children: seq<Child>, i: nat)
    requires i < |pdos| == |children|
    ensures var front := Visible(pdos[..i], children[..i]);
            Visible(pdos[..i + 1], children[..i + 1]) == if children[i].missing then front else front + [pdos[i]]
  {
    assert pdos[..i + 1][..i] == pdos[..i] && children[..i + 1][..i] == children[..i];
  }

  // ----- Loops that may destroy the child at hand -----

  /** The children before `i` met their fate. */
  ghost predicate Midway(b: Bus, i: nat, fate: Child -> Fate, goal: Bus) {
    i <= |b.children| &&
    var s := Sweep(b.children[i..], fate);
    Replace(b, b.children[..i] + s.kept, s.destroyed) == goal
  }

  lemma MidwayStart(b: Bus, fate: Child -> Fate)
    ensures Midway(b, 0, fate, After(b, fate))
  {
    assert b.children[0..] == b.children;
    assert b.children[..0] + Sweep(b.children, fate).kept == Sweep(b.children, fate).kept;
  }

  lemma MidwayStep(b: Bus, i: nat, fate: Child -> Fate, goal: Bus)
    requires Midway(b, i, fate, goal) && i < |b.children|
    ensures var f := fate(b.children[i]); Midway(OnlyOne(b, i, f), if f.Stays? then i + 1 else i, fate, goal)
  {
    var f, s := fate(b.children[i]), Sweep(b.children[i + 1..], fate);
    assert b.children[i..][1..] == b.children[i + 1..];
    TurnAt(b.children, i, f.child);
    Assoc(b.children[..i], [f.child], s.kept);
    assert b.destroyed + ([f.child] + s.destroyed) == b.destroyed + [f.child] + s.destroyed;
  }

  lemma MidwayEnd(b: Bus, i: nat, fate: Child -> Fate, goal: Bus)
    requires Midway(b, i, fate, goal) && i == |b.children|
    ensures b == goal
  {
    assert b.children[..i] + [] == b.children && b.destroyed + [] == b.destroyed;
  }

  // ----- Scans -----

  lemma FindIsFirst(devices: seq<Device>, name: string, k: nat)
    requires k < |devices| && devices[k] == Device(name, true)
    requires forall j | 0 <= j < k :: devices[j] != Device(name, true)
    ensures Find(devices, name) == k
  {}

  /** Where the first loop of __FdoEnumerate is to end. */
  datatype ScanGoal = ScanGoal(bus: Bus, open: seq<Device>, lost: bool, asked: seq<string>)

  function GoalOf(b: Bus, open: seq<Device>): ScanGoal {
    var s := ScanChildren(b.children, open, b.power);
    ScanGoal(AfterScanLoop(b, open), s.open, s.lost, Asked(b.children))
  }

  /** It reached `i`; `open` is still listed, `lost` and `asked` are its results so far. */
  ghost predicate Scanning(b: Bus, i: nat, open: seq<Device>, lost: bool, asked: seq<string>, goal: ScanGoal) {
    i <= |b.children| &&
    var s := ScanChildren(b.children[i..], open, b.power);
    && Replace(b, b.children[..i] + s.kept, s.destroyed) == goal.bus
    && s.open == goal.open && (lost || s.lost) == goal.lost && asked + Asked(b.children[i..]) == goal.asked
  }

  lemma ScanStart(b: Bus, open: seq<Device>)
    ensures Scanning(b, 0, open, false, [], GoalOf(b, open))
  {
    var s := ScanChildren(b.children, open, b.power);
    assert b.children[0..] == b.children && b.children[..0] + s.kept == s.kept;
  }

  lemma ScanStep(b: Bus, i: nat, open: seq<Device>, lost: bool, asked: seq<string>, goal: ScanGoal)
    requires Scanning(b, i, open, lost, asked, goal) && i < |b.children|
    ensures var c := b.children[i];
            var f := ScanFate(c, Found(open, c), b.power);
            Scanning(OnlyOne(b, i, f), if f.Stays? then i + 1 else i, Strike(open, c),
                     lost || (f.Stays? && f.child != c), if Asks(c) then asked + [c.name] else asked, goal)
  {
    var c := b.children[i];
    var f, s := ScanFate(c, Found(open, c), b.power), ScanChildren(b.children[i + 1..], Strike(open, c), b.power);
    assert b.children[i..][1..] == b.children[i + 1..];
    TurnAt(b.children, i, f.child);
    Assoc(b.children[..i], [f.child], s.kept);
    Assoc(b.destroyed, [f.child], s.destroyed);
    AskedFrom(b.children, i, asked);
  }

  lemma AskedFrom(children: seq<Child>, i: nat, asked: seq<string>)
    requires i < |children|
    ensures var c, rest := children[i], Asked(children[i + 1..]);
            asked + Asked(children[i..]) == (if Asks(c) then asked + [c.name] else asked) + rest
  {
    assert children[i..][1..] == children[i + 1..];
    Assoc(asked, if Asks(children[i]) then [children[i].name] else [], Asked(children[i + 1..]));
    assert asked + [] == asked;
  }

  lemma ScanEnd(b: Bus, i: nat, open: seq<Device>, lost: bool, asked: seq<string>, goal: ScanGoal)
    requires Scanning(b, i, open, lost, asked, goal) && i == |b.children|
    ensures b == goal.bus && open == goal.open && lost == goal.lost && asked == goal.asked
  {
    assert b.children[..i] + [] == b.children && b.destroyed + [] == b.destroyed && asked + [] == asked;
  }

  lemma WantedSnoc(open: seq<Device>, j: nat)
    requires j < |open|
    ensures Wanted(open[..j + 1]) == if open[j].listed then Wanted(open[..j]) + [open[j].name] else Wanted(open[..j])
  {
    if j > 0 {
      WantedSnoc(open[1..], j - 1);
      assert open[..j + 1][1..] == open[1..][..j] && open[..j][1..] == open[1..][..j - 1];
    }
  }

  lemma CreateAllSnoc(b: Bus, wanted: seq<string>, works: seq<bool>, name: string, ok: bool)
    requires |works| == |wanted|
    ensures var b' := CreateAll(b, wanted, works);
            CreateAll(b, wanted + [name], works + [ok]) == if ok then AddChild(b', name) else b'
    decreases |wanted|
  {
    if wanted != [] {
      CreateAllSnoc(if works[0] then AddChild(b, wanted[0]) else b, wanted[1..], works[1..], name, ok);
      assert (wanted + [name])[1..] == wanted[1..] + [name] && (works + [ok])[1..] == works[1..] + [ok];
    }
  }
}
