/** What each handler of the device tree does to whom, field by field. */
module Effects {
  import opened Lifecycle
  import opened Sequences

  // ----- The scan -----

  /** Not the default console, live, neither missing nor asked to eject, and without an entry. */
  predicate Vanished(c: Child, devices: seq<Device>) {
    !c.isDefault && c.pnp != Deleted && !c.missing && !c.eject && Device(c.name, true) !in devices
  }

  /** The scan marks exactly the vanished children missing, destroys those of them that were never
      enumerated, and leaves every other child as it is. */
  lemma ScanByField(children: seq<Child>, devices: seq<Device>, power: Power, c: Child)
    requires DistinctDevices(devices) && DistinctNames(children) && c in children
    ensures var s := ScanChildren(children, devices, power);
            && (!Vanished(c, devices) ==> c in s.kept)
            && (Vanished(c, devices) && c.pnp != Present ==> c.(missing := true) in s.kept)
            && (Vanished(c, devices) && c.pnp == Present ==>
                  exists d | d in s.destroyed :: d.id == c.id && d.name == c.name && d.missing && d.pnp == Deleted)
            && |s.kept| + |s.destroyed| == |children|
  {
    var fate := DirectoryFate(devices, power);
    ScanReconciles(children, devices, power);
    SweepLength(children, fate);
    if Vanished(c, devices) && c.pnp == Present {
      assert fate(c).Destroyed?;
      SweepKeepsDestroyed(children, fate, c);
    } else {
      assert fate(c).Stays?;
      SweepKeepsStaying(children, fate, c);
    }
  }

  lemma {:induction false} SweepKeepsDestroyed(children: seq<Child>, fate: Child -> Fate, c: Child)
    requires c in children && fate(c).Destroyed?
    ensures fate(c).child in Sweep(children, fate).destroyed
  {
    if c != children[0] {
      SweepKeepsDestroyed(children[1..], fate, c);
    }
  }

  /** It asks for invalidation if and only if a creation worked or an enumerated child vanished. */
  lemma InvalidateIff(b: Bus, devices: seq<Device>, works: seq<bool>)
    requires DistinctDevices(devices) && DistinctNames(b.children)
    ensures NeedInvalidate(b, devices, works) <==>
            (exists k :: 0 <= k < |works| && works[k])
            || exists c | c in b.children :: Vanished(c, devices) && c.pnp != Present
  {
    ScanReconciles(b.children, devices, b.power);
    assert forall c :: Disappears(c, devices) <==> Vanished(c, devices);
    if c :| c in b.children && Disappears(c, devices) && c.pnp != Present {
      assert Vanished(c, devices);
    }
    if c :| c in b.children && Vanished(c, devices) && c.pnp != Present {
      assert Disappears(c, devices);
    }
  }

  /** A created child is live, not the default console, acquired in D0, and costs a reference. */
  lemma CreatedByField(b: Bus, name: string)
    ensures var b' := AddChild(b, name);
            && |b'.children| == |b.children| + 1 && b'.children[..|b.children|] == b.children
            && var c := b'.children[|b.children|];
            && c.name == name && c.pnp == Present && !c.missing && !c.eject && !c.isDefault
            && c.balance == (if b.power == D0 then 1 else 0) && c.id == b.nextId
            && b'.references == b.references + 1 && b'.nextId == b.nextId + 1
            && b'.pnp == b.pnp && b'.power == b.power && b'.destroyed == b.destroyed
  {
  }

  // ----- The handlers of a child -----

  /** Each handler but that of removal, on a child that is not deleted; on a deleted one, none. */
  lemma HandledByField(c: Child, power: Power)
    ensures c.pnp == Deleted ==> forall minor :: Handled(c, minor, power) == Stays(c)
    ensures c.pnp != Deleted ==>
              && Handled(c, Start(true), power) == Stays(c.(previous := c.pnp, pnp := Started))
              && Handled(c, Start(false), power) == Stays(c)
              && Handled(c, QueryStop, power) == Stays(c.(previous := c.pnp, pnp := StopPending))
              && Handled(c, Stop, power) == Stays(c.(previous := c.pnp, pnp := Stopped))
              && Handled(c, QueryRemove, power) == Stays(c.(previous := c.pnp, pnp := RemovePending))
              && Handled(c, SurpriseRemoval, power) == Stays(c.(previous := c.pnp, pnp := SurpriseRemovePending))
              && Handled(c, Eject, power) == Stays(c.(previous := c.pnp, pnp := Deleted, missing := true))
    ensures c.pnp != Deleted && c.pnp != StopPending ==> Handled(c, CancelStop, power) == Stays(c)
    ensures c.pnp != Deleted && c.pnp != RemovePending ==> Handled(c, CancelRemove, power) == Stays(c.(eject := false))
  {
  }

  /** A query and then its cancel give the child its state back, whatever it was; the cancel of a
      removal also withdraws the eject request. */
  lemma CancelUndoesQuery(c: Child, power: Power)
    requires c.pnp != Deleted
    ensures var q := Handled(c, QueryStop, power).child;
            Handled(q, CancelStop, power) == Stays(c.(previous := c.pnp))
    ensures var q := Handled(c, QueryRemove, power).child;
            Handled(q, CancelRemove, power) == Stays(c.(previous := c.pnp, eject := false))
  {
  }

  /** The removal of a child that is not deleted destroys it if and only if it is missing and its
      surprise removal came first. Otherwise it stays: to be reaped if it is missing, and as good as
      just enumerated if it is not. */
  lemma RemoveDestroysIff(b: Bus, i: nat)
    requires Inv(b) && !b.over && i < |b.children| && b.children[i].pnp != Deleted
    ensures var c := b.children[i];
            var e := PdoPnp(c.id, Remove);
            && Enabled(b, e)
            && var b' := Next(b, e);
            if c.missing && c.pnp == SurpriseRemovePending then
              && b'.children == b.children[..i] + b.children[i + 1..]
              && |b'.destroyed| == |b.destroyed| + 1 && b'.destroyed[..|b.destroyed|] == b.destroyed
              && var d := b'.destroyed[|b.destroyed|];
              d.id == c.id && d.pnp == Deleted && d.missing
            else
              && b'.children == b.children[i := c.(previous := c.pnp, pnp := if c.missing then Deleted else Enumerated)]
              && b'.destroyed == b.destroyed
  {
    ChildEvent(b, i, Remove);
  }

  /** Every other handler of a child changes that child alone. */
  lemma OtherChildrenUntouched(b: Bus, i: nat, minor: Minor)
    requires Inv(b) && !b.over && i < |b.children| && minor != Remove
    ensures var e := PdoPnp(b.children[i].id, minor);
            && Enabled(b, e)
            && var b' := Next(b, e);
            && b'.children == b.children[i := Handled(b.children[i], minor, b.power).child]
            && b'.destroyed == b.destroyed && b'.references == b.references
            && b'.pnp == b.pnp && b'.previous == b.previous && b'.power == b.power
  {
    ChildEvent(b, i, minor);
  }

  lemma RequestEjectByField(b: Bus, i: nat)
    requires Inv(b) && !b.over && i < |b.children|
    ensures var e := RequestEject(b.children[i].id);
            Enabled(b, e) && Next(b, e) == b.(children := b.children[i := b.children[i].(eject := true)])
  {
    assert b.children[i] in b.children;
    OneTurn(b, i, EjectFate, EjectFate(b.children[i]));
  }

  // ----- The handlers of the bus device -----

  /** A query and then its cancel give the bus device its state back; a cancel of anything else
      does nothing. */
  lemma BusCancelUndoesQuery(b: Bus)
    requires Inv(b) && !b.over && b.pnp != Deleted
    ensures Enabled(b, FdoQueryStop) && Next(b, FdoQueryStop) == b.(previous := b.pnp, pnp := StopPending)
    ensures Enabled(b, FdoQueryRemove) && Next(b, FdoQueryRemove) == b.(previous := b.pnp, pnp := RemovePending)
    ensures var q := Next(b, FdoQueryStop); Enabled(q, FdoCancelStop) && Next(q, FdoCancelStop) == b.(previous := b.pnp)
    ensures var q := Next(b, FdoQueryRemove);
            Enabled(q, FdoCancelRemove) && Next(q, FdoCancelRemove) == b.(previous := b.pnp)
    ensures b.pnp != StopPending ==> Next(b, FdoCancelStop) == b
    ensures b.pnp != RemovePending ==> Next(b, FdoCancelRemove) == b
  {
  }

  /** All children stay in place, each changed as told. */
  ghost predicate EachBecame(b: Bus, b': Bus, change: Child -> Child) {
    && b'.destroyed == b.destroyed && b'.references == b.references && |b'.children| == |b.children|
    && forall k | 0 <= k < |b.children| :: b'.children[k] == change(b.children[k])
  }

  lemma EachStays(b: Bus, fate: Child -> Fate, change: Child -> Child)
    requires forall c :: fate(c) == Stays(change(c))
    ensures EachBecame(b, After(b, fate), change)
    ensures After(b, fate) == b.(children := After(b, fate).children)
  {
    StayingSweep(b.children, fate);
    assert b.destroyed + [] == b.destroyed;
  }

  /** Powering up acquires every child. */
  function Up(c: Child): Child {
    c.(balance := c.balance + 1)
  }

  /** Powering down releases every child that is neither missing nor deleted. */
  function Down(c: Child): Child {
    if c.missing || c.pnp == Deleted then c.(skips := c.skips + 1) else c.(balance := c.balance - 1)
  }

  function Missing(c: Child): Child {
    c.(missing := true)
  }

  lemma StartByField(b: Bus)
    requires Enabled(b, FdoStart(true))
    ensures var b' := Next(b, FdoStart(true)); b'.pnp == Started && b'.power == D0 && EachBecame(b, b', Up)
    ensures Enabled(b, FdoStart(false)) && Next(b, FdoStart(false)) == b
  {
    EachStays(b, UpFate, Up);
  }

  lemma StopByField(b: Bus)
    requires Enabled(b, FdoStop)
    ensures var b' := Next(b, FdoStop);
            && b'.pnp == Stopped && b'.power == D3
            && (if b.power == D0 then EachBecame(b, b', Down) else b'.children == b.children)
  {
    EachStays(b, DownFate, Down);
  }

  lemma PowerByField(b: Bus, target: Power, ok: bool)
    requires Enabled(b, FdoPower(target, ok))
    ensures var b' := Next(b, FdoPower(target, ok));
            && b'.pnp == b.pnp && b'.previous == b.previous
            && (b.power == D0 && target == D3 ==> b'.power == D3 && EachBecame(b, b', Down))
            && (b.power == D3 && target == D0 && ok ==> b'.power == D0 && EachBecame(b, b', Up))
            && (target == b.power || (target == D0 && !ok) ==> b' == b)
  {
    EachStays(b, DownFate, Down);
    EachStays(b, UpFate, Up);
  }

  lemma SurpriseByField(b: Bus)
    requires Enabled(b, FdoSurpriseRemoval)
    ensures var b' := Next(b, FdoSurpriseRemoval);
            b'.pnp == SurpriseRemovePending && b'.power == b.power && EachBecame(b, b', Missing)
  {
    EachStays(b.Set(SurpriseRemovePending), LoseFate, Missing);
  }

  /** The relations query counts a present child that is not missing as enumerated; a deleted one
      that is missing goes if the lower devices answered; nothing else changes. */
  lemma RelationsByField(b: Bus, lowerOk: bool, c: Child)
    requires Enabled(b, FdoRelations(true, lowerOk)) && c in b.children
    ensures var b' := Next(b, FdoRelations(true, lowerOk));
            && |b'.children| + |b'.destroyed| == |b.children| + |b.destroyed|
            && (c.pnp == Present && !c.missing ==> c.(previous := Present, pnp := Enumerated) in b'.children)
            && (c.pnp == Deleted && c.missing && lowerOk ==>
                  exists d | d in b'.destroyed :: d.id == c.id && d.pnp == Deleted && d.missing)
            && (!(c.pnp == Present && !c.missing) && !(c.pnp == Deleted && c.missing && lowerOk) ==> c in b'.children)
    ensures Enabled(b, FdoRelations(false, lowerOk)) && Next(b, FdoRelations(false, lowerOk)) == b
  {
    var b1, c1 := After(b, ReportFate), ReportFate(c).child;
    SweepKeepsStaying(b.children, ReportFate, c);
    StayingSweep(b.children, ReportFate);
    SweepLength(b1.children, ReapFate(b.power));
    if lowerOk {
      if c1.pnp == Deleted && c1.missing {
        SweepKeepsDestroyed(b1.children, ReapFate(b.power), c1);
      } else {
        SweepKeepsStaying(b1.children, ReapFate(b.power), c1);
      }
    }
  }

  /** Removal of a bus device that was started leaves of its children only those whose own removal
      is still to come, all missing, and destroys the others; any other leaves them all alone. */
  lemma RemoveByField(b: Bus, c: Child)
    requires Enabled(b, FdoRemove) && c in b.children
    ensures var b' := Next(b, FdoRemove);
            && b'.pnp == Deleted && b'.removed && |b'.children| + |b'.destroyed| == |b.children| + |b.destroyed|
            && (b.previous != Started ==> b'.children == b.children && b'.power == b.power)
            && (b.previous == Started ==> b'.power == D3)
            && (b.previous == Started && c.pnp == SurpriseRemovePending ==>
                  exists d | d in b'.children :: d.id == c.id && d.missing && d.pnp == SurpriseRemovePending)
            && (b.previous == Started && c.pnp != SurpriseRemovePending ==>
                  exists d | d in b'.destroyed :: d.id == c.id && d.missing && d.pnp == Deleted)
  {
    if b.previous == Started {
      var fate := RemoveFate(b.power);
      var b1 := After(b, fate);
      SweepLength(b.children, fate);
      StayingSweep(b1.children, DownFate);
      if c.pnp == SurpriseRemovePending {
        SweepKeepsStaying(b.children, fate, c);
        SweepKeepsStaying(b1.children, DownFate, fate(c).child);
      } else {
        SweepKeepsDestroyed(b.children, fate, c);
      }
    }
  }
}
