/** The device tree of the driver, one atomic step per handler: the bus device (FDO), its list
    of console devices (PDOs), reference counts, PnP states and power. */
module Lifecycle {
  import opened Sequences

  datatype Pnp =
    | Invalid | Present | Enumerated | Added | Started | StopPending | Stopped | RemovePending
    | SurpriseRemovePending | Deleted

  datatype Power = D0 | D3

  /** A PDO. `balance` is its ABI's Acquire calls minus Release calls; `skips` counts the
      power-downs of the bus that passed it over because it was missing. */
  datatype Child = Child(id: nat, name: string, isDefault: bool, pnp: Pnp, previous: Pnp,
                         missing: bool, eject: bool, balance: int, skips: nat)
  {
    /** __PdoSetDevicePnpState. */
    function Set(state: Pnp): Child {
      this.(previous := pnp, pnp := state)
    }

    /** __PdoRestoreDevicePnpState. */
    function Restore(state: Pnp): Child {
      if pnp == state then this.(pnp := previous) else this
    }

    function Lost(): Child {
      this.(missing := true)
    }

    function Acquired(): Child {
      this.(balance := balance + 1)
    }

    function Released(): Child {
      this.(balance := balance - 1)
    }
  }

  /** The FDO. `destroyed` lists PDOs as PdoDestroy left them; `over` says FdoDestroy ran. */
  datatype Bus = Bus(pnp: Pnp, previous: Pnp, power: Power, children: seq<Child>, references: int,
                     removed: bool, nextId: nat, destroyed: seq<Child>, over: bool)
  {
    function Set(state: Pnp): Bus {
      this.(previous := pnp, pnp := state)
    }

    function Restore(state: Pnp): Bus {
      if pnp == state then this.(pnp := previous) else this
    }
  }

  // ----- Sweeps over the child list -----

  /** What a sweep does to one child. */
  datatype Fate = Stays(child: Child) | Destroyed(child: Child)

  datatype Swept = Swept(kept: seq<Child>, destroyed: seq<Child>)

  function Sweep(children: seq<Child>, fate: Child -> Fate): Swept {
    if children == [] then Swept([], [])
    else
      var rest := Sweep(children[1..], fate);
      match fate(children[0])
      case Stays(c) => rest.(kept := [c] + rest.kept)
      case Destroyed(c) => rest.(destroyed := [c] + rest.destroyed)
  }

  /** PdoDestroy's last word on a child: in D0 it gives its reference back. */
  function Final(c: Child, power: Power): Child {
    if power == D0 then c.Released() else c
  }

  /** The bus with its child list swept; every destroyed child gives back a bus reference. */
  function Replace(b: Bus, kept: seq<Child>, destroyed: seq<Child>): Bus {
    b.(children := kept, destroyed := b.destroyed + destroyed, references := b.references - |destroyed|)
  }

  function After(b: Bus, fate: Child -> Fate): Bus {
    var s := Sweep(b.children, fate);
    Replace(b, s.kept, s.destroyed)
  }

  /** FdoD3ToD0: everything in the list is resumed. */
  function PowerUp(b: Bus): Bus {
    After(b, UpFate).(power := D0)
  }

  function UpFate(c: Child): Fate {
    Stays(c.Acquired())
  }

  /** FdoD0ToD3: the missing and the deleted are passed over. */
  function PowerDown(b: Bus): Bus {
    After(b, DownFate).(power := D3)
  }

  function DownFate(c: Child): Fate {
    Stays(if c.pnp == Deleted || c.missing then c.(skips := c.skips + 1) else c.Released())
  }

  /** FdoSurpriseRemoval's loop. */
  function LoseFate(c: Child): Fate {
    Stays(c.Lost())
  }

  function EjectFate(c: Child): Fate {
    Stays(c.(eject := true))
  }

  /** FdoRemoveDevice's loop. */
  function RemoveFate(power: Power): Child -> Fate {
    (c: Child) => Removed(c, power)
  }

  function Removed(c: Child, power: Power): Fate {
    if c.pnp == SurpriseRemovePending then Stays(c.Lost()) else Destroyed(Final(c.Lost().Set(Deleted), power))
  }

  /** FdoQueryDeviceRelations: report, then reap. */
  function ReportFate(c: Child): Fate {
    Stays(if !c.missing && c.pnp == Present then c.Set(Enumerated) else c)
  }

  function ReapFate(power: Power): Child -> Fate {
    (c: Child) => Reaped(c, power)
  }

  function Reaped(c: Child, power: Power): Fate {
    if c.pnp == Deleted && c.missing then Destroyed(Final(c, power)) else Stays(c)
  }

  // ----- __FdoEnumerate -----

  /** An entry of the store directory; `listed` is cleared for unsupported and matched ones. */
  datatype Device = Device(name: string, listed: bool)

  /** First listed entry with this name, or the length. */
  function Find(devices: seq<Device>, name: string): (i: nat)
    ensures i <= |devices|
    ensures i < |devices| ==> devices[i] == Device(name, true)
    ensures forall j | 0 <= j < i :: devices[j] != Device(name, true)
  {
    if devices == [] then 0
    else if devices[0] == Device(name, true) then 0 else 1 + Find(devices[1..], name)
  }

  datatype Scanned = Scanned(kept: seq<Child>, destroyed: seq<Child>, open: seq<Device>, lost: bool)

  /** Only these children are compared with the directory. */
  predicate Counts(c: Child) {
    !c.isDefault && c.pnp != Deleted
  }

  /** A counting child without an entry goes missing, and goes altogether if it was never
      enumerated; one already missing or asked to eject is left alone. */
  function ScanFate(c: Child, found: bool, power: Power): Fate {
    if !Counts(c) || found || c.missing || c.eject then Stays(c)
    else if c.pnp == Present then Destroyed(Final(c.Lost().Set(Deleted), power))
    else Stays(c.Lost())
  }

  /** The directory after a counting child took its entry. */
  function Strike(open: seq<Device>, c: Child): seq<Device> {
    var i := if Counts(c) then Find(open, c.name) else |open|;
    if i < |open| then open[i := open[i].(listed := false)] else open
  }

  function Found(open: seq<Device>, c: Child): bool {
    Counts(c) && Find(open, c.name) < |open|
  }

  /** The first loop. */
  function ScanChildren(children: seq<Child>, open: seq<Device>, power: Power): Scanned
    decreases |children|
  {
    if children == [] then Scanned([], [], open, false)
    else
      var c := children[0];
      var rest := ScanChildren(children[1..], Strike(open, c), power);
      match ScanFate(c, Found(open, c), power)
      case Stays(c') => rest.(kept := [c'] + rest.kept, lost := rest.lost || c' != c)
      case Destroyed(c') => rest.(destroyed := [c'] + rest.destroyed)
  }

  /** The second loop asks for a PDO for every entry still listed. */
  function Wanted(open: seq<Device>): seq<string> {
    if open == [] then []
    else (if open[0].listed then [open[0].name] else []) + Wanted(open[1..])
  }

  /** A new PDO; in D0 it is resumed as it is added. */
  function NewChild(id: nat, name: string, power: Power): Child {
    Child(id, name, false, Present, Invalid, false, false, if power == D0 then 1 else 0, 0)
  }

  /** PdoCreate for each wanted name; `works` tells which attempts succeed. */
  function CreateAll(b: Bus, wanted: seq<string>, works: seq<bool>): Bus
    requires |works| == |wanted|
    decreases |wanted|
  {
    if wanted == [] then b
    else CreateAll(if works[0] then AddChild(b, wanted[0]) else b, wanted[1..], works[1..])
  }

  function AddChild(b: Bus, name: string): Bus {
    b.(children := b.children + [NewChild(b.nextId, name, b.power)],
       references := b.references + 1, nextId := b.nextId + 1)
  }

  function ScanWanted(b: Bus, devices: seq<Device>): seq<string> {
    Wanted(ScanChildren(b.children, devices, b.power).open)
  }

  function AfterScanLoop(b: Bus, devices: seq<Device>): Bus {
    var s := ScanChildren(b.children, devices, b.power);
    Replace(b, s.kept, s.destroyed)
  }

  /** The BOOLEAN __FdoEnumerate returns. */
  function NeedInvalidate(b: Bus, devices: seq<Device>, works: seq<bool>): bool {
    ScanChildren(b.children, devices, b.power).lost || true in works
  }

  // ----- Events -----

  datatype Minor =
    | Start(ok: bool) | QueryStop | CancelStop | Stop | QueryRemove | CancelRemove
    | SurpriseRemoval | Remove | Eject

  datatype Event =
    | FdoStart(ok: bool) | FdoQueryStop | FdoCancelStop | FdoStop
    | FdoQueryRemove | FdoCancelRemove | FdoSurpriseRemoval | FdoRemove
    | FdoRelations(memoryOk: bool, lowerOk: bool)
    | FdoPower(target: Power, ok: bool)
    | Scan(devices: seq<Device>, works: seq<bool>)
    | PdoPnp(id: nat, minor: Minor)
    | RequestEject(id: nat)

  predicate Has(b: Bus, id: nat) {
    exists c | c in b.children :: c.id == id
  }

  /** Dispatch turns IRPs away from deleted devices; scans run on a started bus only;
      FdoD3ToD0 asserts that it starts from D3. */
  predicate Enabled(b: Bus, e: Event) {
    && !b.over
    && match e
       case Scan(devices, works) => b.pnp == Started && |works| == |ScanWanted(b, devices)|
       case PdoPnp(id, _) => Has(b, id)
       case RequestEject(id) => Has(b, id)
       case FdoStart(_) => b.pnp != Deleted && b.power == D3
       case _ => b.pnp != Deleted
  }

  /** PDO handlers of PdoDispatchPnp. */
  function MinorFate(minor: Minor, power: Power): Child -> Fate {
    (c: Child) => Handled(c, minor, power)
  }

  function Handled(c: Child, minor: Minor, power: Power): Fate {
    if c.pnp == Deleted then Stays(c)
    else match minor
      case Start(ok) => Stays(if ok then c.Set(Started) else c)
      case QueryStop => Stays(c.Set(StopPending))
      case CancelStop => Stays(c.Restore(StopPending))
      case Stop => Stays(c.Set(Stopped))
      case QueryRemove => Stays(c.Set(RemovePending))
      case CancelRemove => Stays(c.(eject := false).Restore(RemovePending))
      case SurpriseRemoval => Stays(c.Set(SurpriseRemovePending))
      case Remove =>
        if !c.missing then Stays(c.Set(Enumerated))
        else if c.pnp == SurpriseRemovePending then Destroyed(Final(c.Set(Deleted), power))
        else Stays(c.Set(Deleted))
      case Eject => Stays(c.Set(Deleted).Lost())
  }

  /** Applies a fate to the child with this id. */
  function OnlyAt(id: nat, fate: Child -> Fate): Child -> Fate {
    (c: Child) => if c.id == id then fate(c) else Stays(c)
  }

  /** FdoReleaseMutex and the end of FdoRemoveDevice: the last reference destroys the FDO. */
  function Settle(b: Bus): Bus {
    b.(over := b.references == 0)
  }

  function Next(b: Bus, e: Event): Bus
    requires Enabled(b, e)
  {
    match e
    case FdoStart(ok) => if ok then PowerUp(b).Set(Started) else b
    case FdoQueryStop => b.Set(StopPending)
    case FdoCancelStop => b.Restore(StopPending)
    case FdoStop => (if b.power == D0 then PowerDown(b) else b).Set(Stopped)
    case FdoQueryRemove => b.Set(RemovePending)
    case FdoCancelRemove => b.Restore(RemovePending)
    case FdoSurpriseRemoval => After(b.Set(SurpriseRemovePending), LoseFate)
    case FdoRemove =>
      var b1 := if b.previous == Started then After(b, RemoveFate(b.power)) else b;
      var b2 := if b.previous == Started && b1.power == D0 then PowerDown(b1) else b1;
      Settle(b2.Set(Deleted).(removed := true, references := b2.references - 1))
    case FdoRelations(memoryOk, lowerOk) =>
      if !memoryOk then b
      else
        var b1 := After(b, ReportFate);
        if lowerOk then After(b1, ReapFate(b.power)) else b1
    case FdoPower(target, ok) =>
      if target == b.power then b
      else if target == D3 then PowerDown(b)
      else if ok then PowerUp(b) else b
    case Scan(devices, works) => CreateAll(AfterScanLoop(b, devices), ScanWanted(b, devices), works)
    case PdoPnp(id, minor) => Settle(After(b, OnlyAt(id, MinorFate(minor, b.power))))
    case RequestEject(id) => After(b, OnlyAt(id, EjectFate))
  }

  /** FdoCreate: one reference for the device itself and the default console in the list. */
  function Created(): Bus {
    var console := NewChild(0, "0", D3).(isDefault := true);
    AddChild(Bus(Added, Invalid, D3, [], 1, false, 0, [], false), "0").(children := [console])
  }

  // ----- Invariant -----

  function InD0(power: Power): int {
    if power == D0 then 1 else 0
  }

  /** A deleted child is missing; and every child holds one reference in D0 and none in D3,
      except that a missing one also holds one for each power-down that passed it over. */
  predicate ChildOk(c: Child, power: Power) {
    && (c.pnp == Deleted ==> c.missing)
    && (c.previous == Deleted ==> c.pnp == Deleted)
    && c.balance == InD0(power) + c.skips
    && (!c.missing ==> c.skips == 0)
  }

  predicate GoneOk(c: Child) {
    c.pnp == Deleted && c.missing && c.balance == c.skips
  }

  /** The same device later: missing and deleted are never undone. */
  predicate Carries(c: Child, c': Child) {
    && c'.id == c.id && c'.name == c.name && c'.isDefault == c.isDefault
    && (c.missing ==> c'.missing)
    && (c.pnp == Deleted ==> c'.pnp == Deleted)
  }

  ghost predicate Carried(before: seq<Child>, after: seq<Child>) {
    forall c | c in before :: HasHeir(c, after)
  }

  ghost predicate HasHeir(c: Child, after: seq<Child>) {
    exists c' | c' in after :: Carries(c, c')
  }

  function Ids(children: seq<Child>): multiset<nat> {
    if children == [] then multiset{} else multiset{children[0].id} + Ids(children[1..])
  }

  function AllIds(b: Bus): multiset<nat> {
    Ids(b.children) + Ids(b.destroyed)
  }

  ghost predicate Inv(b: Bus) {
    && b.references == |b.children| + (if b.removed then 0 else 1)
    && (b.removed <==> b.pnp == Deleted)
    && (b.previous == Deleted ==> b.pnp == Deleted)
    && (b.over <==> b.references == 0)
    && (forall c | c in b.children :: ChildOk(c, b.power))
    && (forall c | c in b.destroyed :: GoneOk(c))
    && (forall id | id in AllIds(b) :: AllIds(b)[id] == 1 && id < b.nextId)
  }

  // ----- Sweeps keep the children in order -----

  /** What a fate may do to one child as the bus goes from one power state to another. */
  predicate FateStep(c: Child, f: Fate, from: Power, to: Power) {
    Carries(c, f.child) && (ChildOk(c, from) ==> if f.Stays? then ChildOk(f.child, to) else GoneOk(f.child))
  }

  ghost predicate FateOk(fate: Child -> Fate, from: Power, to: Power) {
    forall c: Child :: FateStep(c, fate(c), from, to)
  }

  /** What a sweep may turn `before` into. */
  ghost predicate SweptOk(before: seq<Child>, kept: seq<Child>, destroyed: seq<Child>, to: Power) {
    && (forall c | c in kept :: ChildOk(c, to))
    && (forall c | c in destroyed :: GoneOk(c))
    && |kept| + |destroyed| == |before|
    && Ids(kept) + Ids(destroyed) == Ids(before)
    && Carried(before, kept + destroyed)
  }

  lemma SweptCons(c: Child, c': Child, before: seq<Child>, kept: seq<Child>, destroyed: seq<Child>,
                  stays: bool, to: Power)
    requires SweptOk(before, kept, destroyed, to) && Carries(c, c')
    requires if stays then ChildOk(c', to) else GoneOk(c')
    ensures stays ==> SweptOk([c] + before, [c'] + kept, destroyed, to)
    ensures !stays ==> SweptOk([c] + before, kept, [c'] + destroyed, to)
  {
    var out := if stays then ([c'] + kept) + destroyed else kept + ([c'] + destroyed);
    assert c' in out;
    forall d | d in [c] + before
      ensures HasHeir(d, out)
    {
      if d in before {
        assert HasHeir(d, kept + destroyed);
        var d' :| d' in kept + destroyed && Carries(d, d');
        assert d' in out;
      }
    }
    IdsCons(c, before);
    IdsCons(c', kept);
    IdsCons(c', destroyed);
  }

  lemma IdsCons(c: Child, children: seq<Child>)
    ensures Ids([c] + children) == multiset{c.id} + Ids(children)
  {
    assert ([c] + children)[1..] == children;
  }

  lemma {:induction false} SweepOk(children: seq<Child>, fate: Child -> Fate, from: Power, to: Power)
    requires FateOk(fate, from, to) && forall c | c in children :: ChildOk(c, from)
    ensures var s := Sweep(children, fate); SweptOk(children, s.kept, s.destroyed, to)
  {
    if children != [] {
      var c, s := children[0], Sweep(children[1..], fate);
      SweepOk(children[1..], fate, from, to);
      assert FateStep(c, fate(c), from, to);
      SweptCons(c, fate(c).child, children[1..], s.kept, s.destroyed, fate(c).Stays?, to);
      assert [c] + children[1..] == children;
    }
  }

  /** The scan's first loop, whatever the directory says, duplicates included. */
  lemma {:induction false} ScanOk(children: seq<Child>, open: seq<Device>, power: Power)
    requires forall c | c in children :: ChildOk(c, power)
    ensures var s := ScanChildren(children, open, power); SweptOk(children, s.kept, s.destroyed, power)
    decreases |children|
  {
    if children != [] {
      var c := children[0];
      var rest := ScanChildren(children[1..], Strike(open, c), power);
      ScanOk(children[1..], Strike(open, c), power);
      var fate := ScanFate(c, Found(open, c), power);
      assert ChildOk(c, power);
      SweptCons(c, fate.child, children[1..], rest.kept, rest.destroyed, fate.Stays?, power);
      assert [c] + children[1..] == children;
    }
  }

  // ----- Every event keeps the invariant -----

  /** Nothing is lost between two states: no child or tombstone vanishes, none turns back. */
  ghost predicate Later(b: Bus, b': Bus) {
    && Carried(b.children, b'.children + b'.destroyed)
    && b.destroyed <= b'.destroyed
    && AllIds(b) <= AllIds(b')
    && (b.pnp == Deleted ==> b'.pnp == Deleted)
  }

  lemma ReplaceOk(b: Bus, kept: seq<Child>, destroyed: seq<Child>, to: Power)
    requires Inv(b) && SweptOk(b.children, kept, destroyed, to)
    ensures var b' := Settle(Replace(b, kept, destroyed).(power := to)); Inv(b') && Later(b, b')
  {
    IdsConcat(b.destroyed, destroyed);
    var b' := Settle(Replace(b, kept, destroyed).(power := to));
    assert AllIds(b') == AllIds(b);
    forall c | c in b.children
      ensures HasHeir(c, b'.children + b'.destroyed)
    {
      assert HasHeir(c, kept + destroyed);
      var c' :| c' in kept + destroyed && Carries(c, c');
      assert c' in b'.children + b'.destroyed;
    }
  }

  /** A sweep with a harmless fate keeps the invariant at its new power. */
  lemma AfterOk(b: Bus, fate: Child -> Fate, to: Power)
    requires Inv(b) && FateOk(fate, b.power, to)
    ensures var b' := Settle(After(b, fate).(power := to)); Inv(b') && Later(b, b')
    ensures !b.removed ==> Settle(After(b, fate).(power := to)) == After(b, fate).(power := to)
  {
    SweepOk(b.children, fate, b.power, to);
    var s := Sweep(b.children, fate);
    ReplaceOk(b, s.kept, s.destroyed, to);
  }

  lemma {:induction false} IdsConcat(a: seq<Child>, b: seq<Child>)
    ensures Ids(a + b) == Ids(a) + Ids(b)
    decreases |a|
  {
    if a == [] {
      assert a + b == b;
    } else {
      assert (a + b)[1..] == a[1..] + b;
      IdsConcat(a[1..], b);
    }
  }

  lemma LaterTransitive(a: Bus, b: Bus, c: Bus)
    requires Later(a, b) && Later(b, c)
    ensures Later(a, c)
  {
    forall x | x in a.children
      ensures HasHeir(x, c.children + c.destroyed)
    {
      assert HasHeir(x, b.children + b.destroyed);
      var y :| y in b.children + b.destroyed && Carries(x, y);
      if y in b.children {
        assert HasHeir(y, c.children + c.destroyed);
        var z :| z in c.children + c.destroyed && Carries(y, z);
      } else {
        assert y in c.destroyed;
        assert y in c.children + c.destroyed;
      }
    }
  }

  lemma LaterReflexive(b: Bus, b': Bus)
    requires b'.children == b.children && b'.destroyed == b.destroyed && (b.pnp == Deleted ==> b'.pnp == Deleted)
    ensures Later(b, b')
  {
    forall c | c in b.children
      ensures HasHeir(c, b'.children + b'.destroyed)
    {
      assert c in b'.children + b'.destroyed;
    }
  }

  lemma AddChildOk(b: Bus, name: string)
    requires Inv(b) && !b.over
    ensures Inv(AddChild(b, name)) && Later(b, AddChild(b, name))
  {
    var b' := AddChild(b, name);
    IdsConcat(b.children, [NewChild(b.nextId, name, b.power)]);
    assert AllIds(b') == AllIds(b) + multiset{b.nextId};
    forall c | c in b.children
      ensures HasHeir(c, b'.children + b'.destroyed)
    {
      assert c in b'.children + b'.destroyed;
    }
  }

  lemma {:induction false} CreateAllOk(b: Bus, wanted: seq<string>, works: seq<bool>)
    requires Inv(b) && !b.over && |works| == |wanted|
    ensures Inv(CreateAll(b, wanted, works)) && Later(b, CreateAll(b, wanted, works))
    decreases |wanted|
  {
    if wanted == [] {
      LaterReflexive(b, b);
    } else {
      var b1 := if works[0] then AddChild(b, wanted[0]) else b;
      LaterReflexive(b, b);
      if works[0] {
        AddChildOk(b, wanted[0]);
      }
      CreateAllOk(b1, wanted[1..], works[1..]);
      LaterTransitive(b, b1, CreateAll(b1, wanted[1..], works[1..]));
    }
  }

  lemma PowerFatesOk()
    ensures FateOk(UpFate, D3, D0) && FateOk(DownFate, D0, D3)
  {
  }

  lemma MarkFatesOk(power: Power)
    ensures FateOk(LoseFate, power, power) && FateOk(EjectFate, power, power) && FateOk(ReportFate, power, power)
  {
  }

  lemma ReapFatesOk(power: Power)
    ensures FateOk(ReapFate(power), power, power)
    ensures FateOk(RemoveFate(power), power, power)
  {
    forall c: Child
      ensures FateStep(c, ReapFate(power)(c), power, power)
    {
    }
    forall c: Child
      ensures FateStep(c, RemoveFate(power)(c), power, power)
    {
      var lost := c.Lost();
      FinalStep(c, lost.Set(Deleted), power);
      assert c.pnp == SurpriseRemovePending ==> FateStep(c, Stays(lost), power, power);
    }
  }

  /** Destroying a missing, deleted version of a child settles its balance. */
  lemma FinalStep(c: Child, d: Child, power: Power)
    requires Carries(c, d) && d.pnp == Deleted && d.missing && d.balance == c.balance && d.skips == c.skips
    ensures FateStep(c, Destroyed(Final(d, power)), power, power)
  {
  }

  lemma MinorFateOk(minor: Minor, power: Power)
    ensures FateOk(MinorFate(minor, power), power, power)
  {
    forall c: Child
      ensures FateStep(c, MinorFate(minor, power)(c), power, power)
    {
      if minor == Remove && c.missing {
        FinalStep(c, c.Set(Deleted), power);
      }
    }
  }

  lemma OnlyAtOk(id: nat, fate: Child -> Fate, power: Power)
    requires FateOk(fate, power, power)
    ensures FateOk(OnlyAt(id, fate), power, power)
  {
    forall c: Child
      ensures FateStep(c, OnlyAt(id, fate)(c), power, power)
    {
      assert FateStep(c, fate(c), power, power);
    }
  }

  lemma RemoveKeepsInv(b: Bus)
    requires Inv(b) && Enabled(b, FdoRemove)
    ensures Inv(Next(b, FdoRemove)) && Later(b, Next(b, FdoRemove))
  {
    PowerFatesOk();
    ReapFatesOk(b.power);
    var b1 := if b.previous == Started then After(b, RemoveFate(b.power)) else b;
    LaterReflexive(b, b);
    if b.previous == Started {
      AfterOk(b, RemoveFate(b.power), b.power);
    }
    var b2 := if b.previous == Started && b1.power == D0 then PowerDown(b1) else b1;
    LaterReflexive(b1, b1);
    if b.previous == Started && b1.power == D0 {
      AfterOk(b1, DownFate, D3);
    }
    LaterTransitive(b, b1, b2);
    LaterReflexive(b2, Next(b, FdoRemove));
    LaterTransitive(b, b2, Next(b, FdoRemove));
  }

  lemma ScanKeepsInv(b: Bus, devices: seq<Device>, works: seq<bool>)
    requires Inv(b) && Enabled(b, Scan(devices, works))
    ensures var b' := Next(b, Scan(devices, works)); Inv(b') && Later(b, b')
  {
    ScanOk(b.children, devices, b.power);
    var s := ScanChildren(b.children, devices, b.power);
    ReplaceOk(b, s.kept, s.destroyed, b.power);
    var b1 := AfterScanLoop(b, devices);
    CreateAllOk(b1, ScanWanted(b, devices), works);
    LaterTransitive(b, b1, Next(b, Scan(devices, works)));
  }

  lemma RelationsKeepsInv(b: Bus, memoryOk: bool, lowerOk: bool)
    requires Inv(b) && Enabled(b, FdoRelations(memoryOk, lowerOk))
    ensures var b' := Next(b, FdoRelations(memoryOk, lowerOk)); Inv(b') && Later(b, b')
  {
    MarkFatesOk(b.power);
    ReapFatesOk(b.power);
    LaterReflexive(b, b);
    AfterOk(b, ReportFate, b.power);
    var b1 := After(b, ReportFate);
    AfterOk(b1, ReapFate(b.power), b.power);
    LaterTransitive(b, b1, After(b1, ReapFate(b.power)));
  }

  lemma PowerUpKeepsInv(b: Bus)
    requires Inv(b) && !b.removed && b.power == D3
    ensures Inv(PowerUp(b)) && Later(b, PowerUp(b))
  {
    PowerFatesOk();
    AfterOk(b, UpFate, D0);
  }

  lemma PowerDownKeepsInv(b: Bus)
    requires Inv(b) && !b.removed && b.power == D0
    ensures Inv(PowerDown(b)) && Later(b, PowerDown(b))
  {
    PowerFatesOk();
    AfterOk(b, DownFate, D3);
  }

  lemma SetKeepsInv(b: Bus, state: Pnp)
    requires Inv(b) && !b.removed && state != Deleted
    ensures Inv(b.Set(state)) && Later(b, b.Set(state))
    ensures Inv(b.Restore(state)) && Later(b, b.Restore(state))
  {
    LaterReflexive(b, b.Set(state));
    LaterReflexive(b, b.Restore(state));
  }

  lemma ChildEventKeepsInv(b: Bus, e: Event)
    requires Inv(b) && Enabled(b, e) && (e.PdoPnp? || e.RequestEject?)
    ensures Inv(Next(b, e)) && Later(b, Next(b, e))
  {
    match e
    case PdoPnp(id, minor) =>
      MinorFateOk(minor, b.power);
      OnlyAtOk(id, MinorFate(minor, b.power), b.power);
      AfterOk(b, OnlyAt(id, MinorFate(minor, b.power)), b.power);
    case RequestEject(id) =>
      MarkFatesOk(b.power);
      OnlyAtOk(id, EjectFate, b.power);
      forall c | c in b.children
        ensures OnlyAt(id, EjectFate)(c).Stays?
      {
        assert EjectFate(c).Stays?;
      }
      StayingSweep(b.children, OnlyAt(id, EjectFate));
      AfterOk(b, OnlyAt(id, EjectFate), b.power);
  }

  /** A sweep that lets every child stay maps the list. */
  lemma {:induction false} StayingSweep(children: seq<Child>, fate: Child -> Fate)
    requires forall c | c in children :: fate(c).Stays?
    ensures var s := Sweep(children, fate); s.destroyed == [] && |s.kept| == |children|
    ensures forall k | 0 <= k < |children| :: Sweep(children, fate).kept[k] == fate(children[k]).child
  {
    if children != [] {
      StayingSweep(children[1..], fate);
    }
  }

  lemma BusEventKeepsInv(b: Bus, e: Event)
    requires Inv(b) && Enabled(b, e)
    requires !e.PdoPnp? && !e.RequestEject? && !e.Scan? && !e.FdoRelations? && !e.FdoRemove?
    ensures Inv(Next(b, e)) && Later(b, Next(b, e))
  {
    LaterReflexive(b, b);
    match e
    case FdoStart(ok) =>
      if ok {
        PowerUpKeepsInv(b);
        SetKeepsInv(PowerUp(b), Started);
        LaterTransitive(b, PowerUp(b), Next(b, e));
      }
    case FdoStop =>
      var b1 := if b.power == D0 then PowerDown(b) else b;
      if b.power == D0 { PowerDownKeepsInv(b); }
      SetKeepsInv(b1, Stopped);
      LaterTransitive(b, b1, Next(b, e));
    case FdoSurpriseRemoval =>
      var b1 := b.Set(SurpriseRemovePending);
      SetKeepsInv(b, SurpriseRemovePending);
      MarkFatesOk(b.power);
      AfterOk(b1, LoseFate, b.power);
      LaterTransitive(b, b1, Next(b, e));
    case FdoPower(target, ok) =>
      if target == D3 && b.power == D0 { PowerDownKeepsInv(b); }
      if target == D0 && b.power == D3 && ok { PowerUpKeepsInv(b); }
    case FdoQueryStop => SetKeepsInv(b, StopPending);
    case FdoCancelStop => SetKeepsInv(b, StopPending);
    case FdoQueryRemove => SetKeepsInv(b, RemovePending);
    case FdoCancelRemove => SetKeepsInv(b, RemovePending);
  }

  /** Every handler, in every order, with every outcome. */
  lemma NextKeepsInv(b: Bus, e: Event)
    requires Inv(b) && Enabled(b, e)
    ensures Inv(Next(b, e)) && Later(b, Next(b, e))
  {
    match e
    case FdoRemove => RemoveKeepsInv(b);
    case FdoRelations(memoryOk, lowerOk) => RelationsKeepsInv(b, memoryOk, lowerOk);
    case Scan(devices, works) => ScanKeepsInv(b, devices, works);
    case PdoPnp(_, _) => ChildEventKeepsInv(b, e);
    case RequestEject(_) => ChildEventKeepsInv(b, e);
    case _ => BusEventKeepsInv(b, e);
  }

  // ----- Whole histories -----

  /** Events one after another, from any state. */
  ghost predicate Chain(states: seq<Bus>, events: seq<Event>) {
    && |states| == |events| + 1
    && (forall i | 0 <= i < |events| :: Enabled(states[i], events[i]) && states[i + 1] == Next(states[i], events[i]))
  }

  ghost predicate Run(states: seq<Bus>, events: seq<Event>) {
    Chain(states, events) && states[0] == Created()
  }

  lemma CreatedOk()
    ensures Inv(Created())
  {
    var b := Created();
    assert b.children == [NewChild(0, "0", D3).(isDefault := true)];
  }

  lemma {:induction false} RunKeepsInv(states: seq<Bus>, events: seq<Event>, i: nat)
    requires Run(states, events) && i < |states|
    ensures Inv(states[i])
    decreases i
  {
    CreatedOk();
    if i > 0 {
      RunKeepsInv(states, events, i - 1);
      NextKeepsInv(states[i - 1], events[i - 1]);
    }
  }

  /** Between any two moments of a run: missing and deleted are never undone, no child vanishes
      without being destroyed, and what was destroyed stays so. */
  lemma RunNeverTurnsBack(states: seq<Bus>, events: seq<Event>, i: nat, j: nat)
    requires Run(states, events) && i <= j < |states|
    ensures Later(states[i], states[j])
  {
    forall k: nat | k + 1 < |states|
      ensures Later(states[k], states[k + 1])
    {
      RunKeepsInv(states, events, k);
      NextKeepsInv(states[k], events[k]);
    }
    LaterChain(states, i, j);
  }

  lemma {:induction false} LaterChain(states: seq<Bus>, i: nat, j: nat)
    requires i <= j < |states|
    requires forall k: nat | k + 1 < |states| :: Later(states[k], states[k + 1])
    ensures Later(states[i], states[j])
    decreases j
  {
    if i == j {
      LaterReflexive(states[i], states[i]);
    } else {
      LaterChain(states, i, j - 1);
      LaterTransitive(states[i], states[j - 1], states[j]);
    }
  }

  /** In every reachable state: a device is destroyed at most once and is then off the list;
      FdoDestroy has run only on an empty list, with no references, deleted. */
  lemma DestroyedOnce(b: Bus, i: nat)
    requires Inv(b) && i < |b.destroyed|
    ensures forall c | c in b.children :: c.id != b.destroyed[i].id
    ensures forall j | 0 <= j < |b.destroyed| && j != i :: b.destroyed[j].id != b.destroyed[i].id
    ensures b.over ==> b.children == [] && b.references == 0 && b.pnp == Deleted
  {
    var id := b.destroyed[i].id;
    IdsAt(b.destroyed, i);
    IdsOnce(b, id);
    forall c | c in b.children
      ensures c.id != id
    {
      var k :| 0 <= k < |b.children| && b.children[k] == c;
      IdsAt(b.children, k);
    }
    forall j | 0 <= j < |b.destroyed| && j != i
      ensures b.destroyed[j].id != id
    {
      if b.destroyed[j].id == id {
        IdsTwice(b.destroyed, if i < j then i else j, if i < j then j else i);
      }
    }
  }

  lemma IdsOnce(b: Bus, id: nat)
    requires Inv(b)
    ensures Ids(b.children)[id] + Ids(b.destroyed)[id] <= 1
  {
    assert AllIds(b)[id] == Ids(b.children)[id] + Ids(b.destroyed)[id];
    if id in AllIds(b) {
    }
  }

  lemma {:induction false} IdsAt(children: seq<Child>, k: nat)
    requires k < |children|
    ensures Ids(children)[children[k].id] >= 1
  {
    if k > 0 {
      IdsAt(children[1..], k - 1);
    }
  }

  lemma {:induction false} IdsTwice(children: seq<Child>, j: nat, k: nat)
    requires j < k < |children| && children[j].id == children[k].id
    ensures Ids(children)[children[j].id] >= 2
  {
    if j == 0 {
      IdsAt(children[1..], k - 1);
    } else {
      IdsTwice(children[1..], j - 1, k - 1);
    }
  }

  /** The console ABI is acquired exactly once more than released while the bus is in D0 and
      exactly as often in D3, for every listed child that is not missing; a missing child is
      over by the number of power-downs that passed it over, and a destroyed one keeps those. */
  lemma PowerBalance(b: Bus, c: Child)
    requires Inv(b)
    ensures c in b.children && !c.missing ==> c.balance == InD0(b.power)
    ensures c in b.children ==> c.balance == InD0(b.power) + c.skips
    ensures c in b.destroyed ==> c.balance == c.skips
  {
    if c in b.children {
      assert ChildOk(c, b.power);
    }
  }

  // ----- When the console ABI's references stay balanced -----

  /** Every listed child is acquired in D0 and not in D3, missing or not, and no destroyed one was
      left acquired. */
  predicate Balanced(b: Bus) {
    (forall c | c in b.children :: c.balance == InD0(b.power)) && (forall c | c in b.destroyed :: c.balance == 0)
  }

  /** The event powers the bus down past a child that is missing or, on removal, about to be. */
  predicate Overlooks(b: Bus, e: Event) {
    b.power == D0 &&
    match e
    case FdoStop => exists c | c in b.children :: c.missing
    case FdoPower(target, _) => target == D3 && exists c | c in b.children :: c.missing
    case FdoRemove => b.previous == Started && exists c | c in b.children :: c.pnp == SurpriseRemovePending
    case _ => false
  }

  predicate NoSkips(children: seq<Child>) {
    forall c | c in children :: c.skips == 0
  }

  lemma BalancedIffNoSkips(b: Bus)
    requires Inv(b)
    ensures Balanced(b) <==> NoSkips(b.children) && NoSkips(b.destroyed)
  {
    forall c | c in b.children
      ensures c.balance == InD0(b.power) + c.skips
    {
      assert ChildOk(c, b.power);
    }
    forall c | c in b.destroyed
      ensures c.balance == c.skips
    {
      assert GoneOk(c);
    }
  }

  lemma {:induction false} SweepSkips(children: seq<Child>, fate: Child -> Fate)
    requires forall c :: fate(c).child.skips == c.skips
    ensures NoSkips(children) ==> NoSkips(Sweep(children, fate).kept) && NoSkips(Sweep(children, fate).destroyed)
  {
    if children != [] {
      SweepSkips(children[1..], fate);
    }
  }

  lemma {:induction false} ScanSkips(children: seq<Child>, open: seq<Device>, power: Power)
    requires NoSkips(children)
    ensures NoSkips(ScanChildren(children, open, power).kept) && NoSkips(ScanChildren(children, open, power).destroyed)
    decreases |children|
  {
    if children != [] {
      ScanSkips(children[1..], Strike(open, children[0]), power);
    }
  }

  lemma {:induction false} NewsSkips(id: nat, wanted: seq<string>, works: seq<bool>, power: Power)
    requires |works| == |wanted|
    ensures NoSkips(News(id, wanted, works, power))
    decreases |wanted|
  {
    if wanted != [] {
      NewsSkips(if works[0] then id + 1 else id, wanted[1..], works[1..], power);
    }
  }

  /** A sweep by a fate that leaves the ledger alone. */
  lemma AfterSkips(b: Bus, fate: Child -> Fate)
    requires NoSkips(b.children) && NoSkips(b.destroyed) && forall c :: fate(c).child.skips == c.skips
    ensures NoSkips(After(b, fate).children) && NoSkips(After(b, fate).destroyed)
  {
    SweepSkips(b.children, fate);
  }

  /** Powering down skips exactly the missing, the deleted being among them. */
  lemma PowerDownSkips(b: Bus)
    requires NoSkips(b.children) && NoSkips(b.destroyed) && forall c | c in b.children :: c.pnp == Deleted ==> c.missing
    ensures NoSkips(PowerDown(b).children) && NoSkips(PowerDown(b).destroyed) <==>
            forall c | c in b.children :: !c.missing
  {
    StayingSweep(b.children, DownFate);
    var kept := Sweep(b.children, DownFate).kept;
    assert b.destroyed + [] == b.destroyed;
    forall k | 0 <= k < |b.children|
      ensures kept[k].skips == 0 <==> !b.children[k].missing
    {
      assert DownFate(b.children[k]) == Stays(kept[k]) && b.children[k] in b.children;
    }
    if c :| c in b.children && c.missing {
      var k :| 0 <= k < |b.children| && b.children[k] == c;
      assert kept[k] in kept;
    }
  }

  /** From a balanced bus in D0: powering down keeps the balance if and only if no child listed
      is missing. */
  lemma PowerDownBalancedIff(b: Bus)
    requires Inv(b) && !b.removed && b.power == D0 && Balanced(b)
    ensures Balanced(PowerDown(b)) <==> forall c | c in b.children :: !c.missing
  {
    PowerDownKeepsInv(b);
    BalancedIffNoSkips(b);
    BalancedIffNoSkips(PowerDown(b));
    MissingIfDeleted(b);
    PowerDownSkips(b);
  }

  lemma MissingIfDeleted(b: Bus)
    requires Inv(b)
    ensures forall c | c in b.children :: c.pnp == Deleted ==> c.missing
  {
    forall c | c in b.children
      ensures c.pnp == Deleted ==> c.missing
    {
      assert ChildOk(c, b.power);
    }
  }

  /** Removal powers down past exactly the children it leaves listed. */
  lemma RemoveSkips(b: Bus)
    requires Inv(b) && Enabled(b, FdoRemove) && NoSkips(b.children) && NoSkips(b.destroyed)
    ensures var b' := Next(b, FdoRemove); NoSkips(b'.children) && NoSkips(b'.destroyed) <==> !Overlooks(b, FdoRemove)
  {
    if b.previous == Started {
      var b1 := After(b, RemoveFate(b.power));
      RemoveKeeps(b.children, b.power);
      AfterSkips(b, RemoveFate(b.power));
      KeptAreMissing(b.children, b.power);
      if b.power == D0 {
        PowerDownSkips(b1);
        assert b1.children != [] ==> b1.children[0] in b1.children;
      }
    }
  }

  lemma {:induction false} KeptAreMissing(children: seq<Child>, power: Power)
    ensures forall c | c in Sweep(children, RemoveFate(power)).kept :: c.missing
  {
    if children != [] {
      KeptAreMissing(children[1..], power);
    }
  }

  lemma ScanAddsNoSkips(b: Bus, devices: seq<Device>, works: seq<bool>)
    requires Enabled(b, Scan(devices, works)) && NoSkips(b.children) && NoSkips(b.destroyed)
    ensures var b' := Next(b, Scan(devices, works)); NoSkips(b'.children) && NoSkips(b'.destroyed)
  {
    var b1, wanted := AfterScanLoop(b, devices), ScanWanted(b, devices);
    ScanSkips(b.children, devices, b.power);
    CreateAllAdds(b1, wanted, works);
    NewsSkips(b1.nextId, wanted, works, b1.power);
  }

  lemma RelationsAddNoSkips(b: Bus, memoryOk: bool, lowerOk: bool)
    requires Enabled(b, FdoRelations(memoryOk, lowerOk)) && NoSkips(b.children) && NoSkips(b.destroyed)
    ensures var b' := Next(b, FdoRelations(memoryOk, lowerOk)); NoSkips(b'.children) && NoSkips(b'.destroyed)
  {
    AfterSkips(b, ReportFate);
    AfterSkips(After(b, ReportFate), ReapFate(b.power));
  }

  lemma ChildAddsNoSkips(b: Bus, id: nat, minor: Minor)
    requires Enabled(b, PdoPnp(id, minor)) && NoSkips(b.children) && NoSkips(b.destroyed)
    ensures var b' := Next(b, PdoPnp(id, minor)); NoSkips(b'.children) && NoSkips(b'.destroyed)
  {
    AfterSkips(b, OnlyAt(id, MinorFate(minor, b.power)));
  }

  lemma EjectAddsNoSkips(b: Bus, id: nat)
    requires Enabled(b, RequestEject(id)) && NoSkips(b.children) && NoSkips(b.destroyed)
    ensures var b' := Next(b, RequestEject(id)); NoSkips(b'.children) && NoSkips(b'.destroyed)
  {
    forall c: Child
      ensures OnlyAt(id, EjectFate)(c).child.skips == c.skips
    {
      assert EjectFate(c).child.skips == c.skips;
    }
    AfterSkips(b, OnlyAt(id, EjectFate));
  }

  /** Over all handlers: exactly the events that overlook a child upset the balance. */
  lemma BalanceKeptIff(b: Bus, e: Event)
    requires Inv(b) && Enabled(b, e) && Balanced(b)
    ensures Balanced(Next(b, e)) <==> !Overlooks(b, e)
  {
    NextKeepsInv(b, e);
    BalancedIffNoSkips(b);
    BalancedIffNoSkips(Next(b, e));
    SkipsKeptIff(b, e);
  }

  lemma SkipsKeptIff(b: Bus, e: Event)
    requires Inv(b) && Enabled(b, e) && NoSkips(b.children) && NoSkips(b.destroyed)
    ensures NoSkips(Next(b, e).children) && NoSkips(Next(b, e).destroyed) <==> !Overlooks(b, e)
  {
    MissingIfDeleted(b);
    match e
    case FdoStart(ok) => AfterSkips(b, UpFate);
    case FdoStop => if b.power == D0 { PowerDownSkips(b); }
    case FdoPower(target, ok) => if target == D3 { PowerDownSkips(b); } else { AfterSkips(b, UpFate); }
    case FdoSurpriseRemoval => AfterSkips(b.Set(SurpriseRemovePending), LoseFate);
    case FdoRemove => RemoveSkips(b);
    case FdoQueryStop =>
    case FdoCancelStop =>
    case FdoQueryRemove =>
    case FdoCancelRemove =>
    case FdoRelations(memoryOk, lowerOk) => RelationsAddNoSkips(b, memoryOk, lowerOk);
    case Scan(devices, works) => ScanAddsNoSkips(b, devices, works);
    case PdoPnp(id, minor) => ChildAddsNoSkips(b, id, minor);
    case RequestEject(id) => EjectAddsNoSkips(b, id);
  }

  /** So a run in which no event does is balanced throughout. */
  lemma {:induction false} RunBalanced(states: seq<Bus>, events: seq<Event>, i: nat)
    requires Run(states, events) && i < |states|
    requires forall j | 0 <= j < i :: !Overlooks(states[j], events[j])
    ensures Balanced(states[i])
  {
    if i > 0 {
      RunBalanced(states, events, i - 1);
      RunKeepsInv(states, events, i - 1);
      BalanceKeptIff(states[i - 1], events[i - 1]);
    } else {
      assert Created().children == [NewChild(0, "0", D3).(isDefault := true)];
    }
  }

  /** And it can happen: started, surprise-removed, powered down. */
  lemma MissingChildUnbalanced()
    ensures exists states: seq<Bus>, events: seq<Event> :: Run(states, events) && !Balanced(states[|events|])
  {
    var states, events := RunToMissing();
    var n, e := |events|, FdoPower(D3, true);
    RunKeepsInv(states, events, n);
    RunBalanced(states, events, n);
    BalanceKeptIff(states[n], e);
    ExtendRun(states, events, e);
    assert !Balanced((states + [Next(states[n], e)])[|events + [e]|]);
  }

  lemma ExtendRun(states: seq<Bus>, events: seq<Event>, e: Event)
    requires Run(states, events) && Enabled(states[|events|], e)
    ensures Run(states + [Next(states[|events|], e)], events + [e])
  {
  }

  lemma RunToMissing() returns (states: seq<Bus>, events: seq<Event>)
    ensures Run(states, events) && forall j | 0 <= j < |events| :: !Overlooks(states[j], events[j])
    ensures Overlooks(states[|events|], FdoPower(D3, true)) && Enabled(states[|events|], FdoPower(D3, true))
  {
    ConsoleGoesMissing();
    states, events := [Created()], [];
    ExtendRun(states, events, FdoStart(true));
    states, events := states + [Next(states[0], FdoStart(true))], [FdoStart(true)];
    ExtendRun(states, events, FdoSurpriseRemoval);
    states, events := states + [Next(states[1], FdoSurpriseRemoval)], events + [FdoSurpriseRemoval];
  }

  lemma ConsoleGoesMissing()
    ensures Enabled(Created(), FdoStart(true))
    ensures var b1 := Next(Created(), FdoStart(true));
            && Enabled(b1, FdoSurpriseRemoval)
            && var b2 := Next(b1, FdoSurpriseRemoval);
            b2.power == D0 && b2.pnp == SurpriseRemovePending && !b2.over && exists c | c in b2.children :: c.missing
  {
    var console := NewChild(0, "0", D3).(isDefault := true);
    var b1 := Next(Created(), FdoStart(true));
    assert b1.children == [console.Acquired()];
    var b2 := Next(b1, FdoSurpriseRemoval);
    assert b2.children[0] in b2.children;
  }

  // ----- One child -----

  /** The bus after only its child at `i` met its fate. */
  function OnlyOne(b: Bus, i: nat, f: Fate): Bus
    requires i < |b.children|
  {
    match f
    case Stays(c) => b.(children := b.children[i := c])
    case Destroyed(c) => Replace(b, b.children[..i] + b.children[i + 1..], [c])
  }

  lemma TurnAt(children: seq<Child>, i: nat, c: Child)
    requires i < |children|
    ensures var kept, gone := children[i := c], children[..i] + children[i + 1..];
            && kept[..i + 1] == children[..i] + [c] && kept[i + 1..] == children[i + 1..]
            && gone[..i] == children[..i] && gone[i..] == children[i + 1..]
  {}

  /** With distinct ids, an event aimed at one child changes only that one. */
  lemma OneTurn(b: Bus, i: nat, fate: Child -> Fate, f: Fate)
    requires Inv(b) && i < |b.children| && f == fate(b.children[i])
    ensures After(b, OnlyAt(b.children[i].id, fate)) == OnlyOne(b, i, f)
  {
    var only := OnlyAt(b.children[i].id, fate);
    forall j | 0 <= j < |b.children| && j != i
      ensures only(b.children[j]) == Stays(b.children[j])
    {
      if b.children[j].id == b.children[i].id {
        IdsTwice(b.children, if i < j then i else j, if i < j then j else i);
        IdsOnce(b, b.children[i].id);
      }
    }
    TurnAt(b.children, i, f.child);
    assert b.children == b.children[..i] + b.children[i..] && b.children[i..][1..] == b.children[i + 1..];
    assert b.children[i := f.child] == b.children[..i] + [f.child] + b.children[i + 1..];
    assert b.destroyed + [] == b.destroyed;
    SweepOne(b.children[..i], b.children[i..], only);
  }

  lemma ChildEvent(b: Bus, i: nat, minor: Minor)
    requires Inv(b) && !b.over && i < |b.children|
    ensures var e := PdoPnp(b.children[i].id, minor);
            Enabled(b, e) && Next(b, e) == Settle(OnlyOne(b, i, Handled(b.children[i], minor, b.power)))
  {
    assert b.children[i] in b.children;
    OneTurn(b, i, MinorFate(minor, b.power), Handled(b.children[i], minor, b.power));
  }

  lemma SweepOne(a: seq<Child>, b: seq<Child>, only: Child -> Fate)
    requires b != []
    requires forall k | 0 <= k < |a| :: only(a[k]) == Stays(a[k])
    requires forall k | 0 < k < |b| :: only(b[k]) == Stays(b[k])
    ensures var f, z := only(b[0]), b[1..];
            Sweep(a + b, only) == if f.Stays? then Swept(a + [f.child] + z, []) else Swept(a + z, [f.child])
  {
    var f, z := only(b[0]), b[1..];
    SweepIdle(a, b, only);
    assert Sweep(z, only) == Swept(z, []) by {
      SweepIdle(z, [], only);
      assert z + [] == z;
    }
    Assoc(a, [f.child], z);
  }

  /** Children that stay as they are. */
  lemma SweepIdle(idle: seq<Child>, rest: seq<Child>, fate: Child -> Fate)
    requires forall k | 0 <= k < |idle| :: fate(idle[k]) == Stays(idle[k])
    ensures var s := Sweep(rest, fate); Sweep(idle + rest, fate) == Swept(idle + s.kept, s.destroyed)
  {
    var s := Sweep(rest, fate);
    if idle == [] {
      Uncons([], rest);
      Uncons([], s.kept);
    } else {
      SweepIdle(idle[1..], rest, fate);
      Uncons(idle, rest);
      Uncons(idle, s.kept);
    }
  }

  lemma Uncons(a: seq<Child>, b: seq<Child>)
    ensures if a == [] then a + b == b
            else (a + b)[0] == a[0] && (a + b)[1..] == a[1..] + b && a + b == [a[0]] + (a[1..] + b)
  {}

  // ----- Removing the bus device -----

  /** A child FdoDestroy would wait for in vain: nothing but PdoRemoveDevice of a surprise-removed
      child destroys anything once the bus device is removed. */
  predicate Stuck(c: Child) {
    !c.missing || c.pnp == Deleted
  }

  /** FdoRemoveDevice destroys the FDO at once exactly when no child is left: the list was empty,
      or the previous state was Started and no child awaits its own removal after a surprise. */
  lemma RemoveFinishes(b: Bus)
    requires Inv(b) && Enabled(b, FdoRemove)
    ensures Next(b, FdoRemove).over <==>
            b.children == []
            || (b.previous == Started && forall c | c in b.children :: c.pnp != SurpriseRemovePending)
  {
    RemoveKeepsInv(b);
    var b1 := if b.previous == Started then After(b, RemoveFate(b.power)) else b;
    RemoveKeeps(b.children, b.power);
    SweepLength(b1.children, DownFate);
    StayingSweep(b1.children, DownFate);
  }

  lemma {:induction false} RemoveKeeps(children: seq<Child>, power: Power)
    ensures Sweep(children, RemoveFate(power)).kept == [] <==>
            forall c | c in children :: c.pnp != SurpriseRemovePending
  {
    if children != [] {
      RemoveKeeps(children[1..], power);
      assert children == [children[0]] + children[1..];
    }
  }

  lemma {:induction false} SweepLength(children: seq<Child>, fate: Child -> Fate)
    ensures |Sweep(children, fate).kept| + |Sweep(children, fate).destroyed| == |children|
  {
    if children != [] {
      SweepLength(children[1..], fate);
    }
  }

  /** A bus device removed from any other state leaves its children listed; one of them that is
      not missing keeps the FDO from ever being destroyed. */
  lemma LeftBehind(b: Bus, e: Event)
    requires Inv(b) && b.removed && Enabled(b, e) && exists c | c in b.children :: Stuck(c)
    ensures Next(b, e).removed && !Next(b, e).over && exists c | c in Next(b, e).children :: Stuck(c)
  {
    NextKeepsInv(b, e);
    var c :| c in b.children && Stuck(c);
    var f := OnlyAt(e.id, if e.PdoPnp? then MinorFate(e.minor, b.power) else EjectFate);
    StuckStays(c, e, b.power);
    SweepKeepsStaying(b.children, f, c);
  }

  lemma StuckStays(c: Child, e: Event, power: Power)
    requires Stuck(c) && (c.pnp == Deleted ==> c.missing) && (e.PdoPnp? || e.RequestEject?)
    ensures var f := OnlyAt(e.id, if e.PdoPnp? then MinorFate(e.minor, power) else EjectFate);
            f(c).Stays? && Stuck(f(c).child)
  {
    if e.PdoPnp? {
      var f := MinorFate(e.minor, power);
      assert f(c).Stays? && Stuck(f(c).child);
    } else {
      assert EjectFate(c) == Stays(c.(eject := true));
    }
  }

  lemma {:induction false} SweepKeepsStaying(children: seq<Child>, fate: Child -> Fate, c: Child)
    requires c in children && fate(c).Stays?
    ensures fate(c).child in Sweep(children, fate).kept
  {
    if c != children[0] {
      SweepKeepsStaying(children[1..], fate, c);
    }
  }

  /** Some sequence of events, each enabled in its turn, ends in FdoDestroy. */
  ghost predicate CanEnd(b: Bus) {
    exists states: seq<Bus>, events: seq<Event> ::
      Chain(states, events) && states[0] == b && states[|events|].over
  }

  lemma EndsNow(b: Bus)
    requires b.over
    ensures CanEnd(b)
  {
    var states: seq<Bus>, events: seq<Event> := [b], [];
    assert Chain(states, events) && states[|events|].over;
  }

  lemma EndsAfter(b: Bus, e: Event)
    requires Enabled(b, e) && CanEnd(Next(b, e))
    ensures CanEnd(b)
  {
    var states: seq<Bus>, events: seq<Event> :|
      Chain(states, events) && states[0] == Next(b, e) && states[|events|].over;
    var states', events' := [b] + states, [e] + events;
    assert Chain(states', events') by {
      forall i | 0 <= i < |events'|
        ensures Enabled(states'[i], events'[i]) && states'[i + 1] == Next(states'[i], events'[i])
      {
        if i > 0 {
          assert Enabled(states[i - 1], events[i - 1]);
        }
      }
    }
    assert states'[|events'|] == states[|events|];
  }

  /** A leftover child that is missing and not yet deleted is told of its surprise removal. */
  lemma LostChildIsTold(b: Bus)
    requires Inv(b) && b.removed && b.children != [] && !Stuck(b.children[0])
    ensures var c := b.children[0]; var e := PdoPnp(c.id, SurpriseRemoval);
            && Enabled(b, e) && Inv(Next(b, e)) && Next(b, e).removed
            && Next(b, e).children == [c.Set(SurpriseRemovePending)] + b.children[1..]
  {
    var c := b.children[0];
    ChildEvent(b, 0, SurpriseRemoval);
    NextKeepsInv(b, PdoPnp(c.id, SurpriseRemoval));
  }

  /** And then goes when it is removed. */
  lemma ToldChildGoes(b: Bus)
    requires Inv(b) && b.removed && b.children != []
    requires b.children[0].missing && b.children[0].pnp == SurpriseRemovePending
    ensures var e := PdoPnp(b.children[0].id, Remove);
            Enabled(b, e) && Inv(Next(b, e)) && Next(b, e).removed && Next(b, e).children == b.children[1..]
  {
    var e := PdoPnp(b.children[0].id, Remove);
    ChildEvent(b, 0, Remove);
    FirstGone(b, Handled(b.children[0], Remove, b.power));
    NextKeepsInv(b, e);
  }

  lemma FirstGone(b: Bus, f: Fate)
    requires b.children != [] && f.Destroyed?
    ensures Settle(OnlyOne(b, 0, f)).children == b.children[1..] && OnlyOne(b, 0, f).removed == b.removed
  {
    assert b.children[..0] + b.children[1..] == b.children[1..];
  }

  lemma {:induction false} LostChildrenGo(b: Bus)
    requires Inv(b) && b.removed && forall c | c in b.children :: !Stuck(c)
    ensures CanEnd(b)
    decreases |b.children|
  {
    if b.children == [] {
      EndsNow(b);
    } else {
      var id := b.children[0].id;
      LostChildIsTold(b);
      var b1 := Next(b, PdoPnp(id, SurpriseRemoval));
      ToldChildGoes(b1);
      assert b1.children[1..] == b.children[1..];
      LostChildrenGo(Next(b1, PdoPnp(id, Remove)));
      EndsAfter(b1, PdoPnp(id, Remove));
      EndsAfter(b, PdoPnp(id, SurpriseRemoval));
    }
  }

  lemma {:induction false} StuckForGood(states: seq<Bus>, events: seq<Event>, i: nat)
    requires Chain(states, events) && i < |states|
    requires Inv(states[0]) && states[0].removed && exists c | c in states[0].children :: Stuck(c)
    ensures Inv(states[i]) && states[i].removed && !states[i].over && exists c | c in states[i].children :: Stuck(c)
  {
    if i > 0 {
      StuckForGood(states, events, i - 1);
      assert Enabled(states[i - 1], events[i - 1]);
      NextKeepsInv(states[i - 1], events[i - 1]);
      LeftBehind(states[i - 1], events[i - 1]);
    }
  }

  /** Once the bus device is removed, FdoDestroy can still come if and only if no child left
      behind is stuck, that is, every one is missing and not yet deleted. */
  lemma CanEndIff(b: Bus)
    requires Inv(b) && b.removed
    ensures CanEnd(b) <==> forall c | c in b.children :: !Stuck(c)
  {
    if CanEnd(b) {
      var states: seq<Bus>, events: seq<Event> :|
        Chain(states, events) && states[0] == b && states[|events|].over;
      if exists c | c in b.children :: Stuck(c) {
        StuckForGood(states, events, |events|);
      }
    }
    if forall c | c in b.children :: !Stuck(c) {
      LostChildrenGo(b);
    }
  }

  /** Never started, then removed: the default console stays behind for good. */
  lemma RemovedBeforeStart()
    ensures Enabled(Created(), FdoRemove)
    ensures var b := Next(Created(), FdoRemove);
            Inv(b) && b.removed && !b.over && exists c | c in b.children :: Stuck(c)
  {
    CreatedOk();
    RemoveKeepsInv(Created());
    var b := Next(Created(), FdoRemove);
    assert b.children[0] == NewChild(0, "0", D3).(isDefault := true);
    assert Stuck(b.children[0]);
  }

  // ----- A scan is a reconciliation -----

  predicate Listed(devices: seq<Device>, name: string) {
    Device(name, true) in devices
  }

  predicate DistinctDevices(devices: seq<Device>) {
    forall i, j | 0 <= i < j < |devices| && devices[i].listed && devices[j].listed :: devices[i].name != devices[j].name
  }

  predicate DistinctNames(children: seq<Child>) {
    forall i, j | 0 <= i < j < |children| && Counts(children[i]) && Counts(children[j]) ::
      children[i].name != children[j].name
  }

  predicate Taken(children: seq<Child>, name: string) {
    exists c | c in children :: Counts(c) && c.name == name
  }

  /** The rule for one child, without reference to the others. */
  function DirectoryFate(devices: seq<Device>, power: Power): Child -> Fate {
    (c: Child) => ScanFate(c, Counts(c) && Listed(devices, c.name), power)
  }

  lemma StrikeOne(open: seq<Device>, c: Child)
    requires DistinctDevices(open)
    ensures Found(open, c) <==> Counts(c) && Listed(open, c.name)
    ensures DistinctDevices(Strike(open, c))
    ensures forall name :: Listed(Strike(open, c), name) <==> Listed(open, name) && !(Counts(c) && name == c.name)
  {
    var i := if Counts(c) then Find(open, c.name) else |open|;
    if i < |open| {
      var open' := Strike(open, c);
      forall name
        ensures Listed(open', name) <==> Listed(open, name) && name != c.name
      {
        if Listed(open, name) && name != c.name {
          var k :| 0 <= k < |open| && open[k] == Device(name, true);
          assert open'[k] == Device(name, true);
        }
        if Listed(open', name) {
          var k :| 0 <= k < |open'| && open'[k] == Device(name, true);
          assert open[k] == Device(name, true) && k != i;
        }
      }
    }
  }

  lemma {:induction false} SweepAgrees(children: seq<Child>, f: Child -> Fate, g: Child -> Fate)
    requires forall c | c in children :: f(c) == g(c)
    ensures Sweep(children, f) == Sweep(children, g)
  {
    if children != [] {
      SweepAgrees(children[1..], f, g);
    }
  }

  /** For distinct names the sequential scan does to every child what the rule says, goes on to
      want exactly the listed names no counting child has, each once, and reports a loss exactly
      when some enumerated child went missing. */
  lemma {:induction false} ScanReconciles(children: seq<Child>, devices: seq<Device>, power: Power)
    requires DistinctDevices(devices) && DistinctNames(children)
    ensures var s := ScanChildren(children, devices, power);
            && Swept(s.kept, s.destroyed) == Sweep(children, DirectoryFate(devices, power))
            && DistinctDevices(s.open)
            && (forall name :: Listed(s.open, name) <==> Listed(devices, name) && !Taken(children, name))
            && (s.lost <==> exists c | c in children :: Disappears(c, devices) && c.pnp != Present)
    decreases |children|
  {
    if children != [] {
      var c, rest := children[0], children[1..];
      var open' := Strike(devices, c);
      StrikeOne(devices, c);
      ScanReconciles(rest, open', power);
      assert children == [c] + rest;
      forall d | d in rest
        ensures DirectoryFate(open', power)(d) == DirectoryFate(devices, power)(d)
        ensures Disappears(d, open') <==> Disappears(d, devices)
      {
        SameVerdict(children, d, devices);
      }
      SweepAgrees(rest, DirectoryFate(open', power), DirectoryFate(devices, power));
    }
  }

  /** Counting, unlisted, not yet missing and not about to be ejected. */
  predicate Disappears(c: Child, devices: seq<Device>) {
    Counts(c) && !Listed(devices, c.name) && !c.missing && !c.eject
  }

  lemma SameVerdict(children: seq<Child>, d: Child, devices: seq<Device>)
    requires children != [] && d in children[1..] && DistinctNames(children) && DistinctDevices(devices)
    ensures Counts(d) ==> (Listed(Strike(devices, children[0]), d.name) <==> Listed(devices, d.name))
  {
    StrikeOne(devices, children[0]);
    var k :| 0 <= k < |children[1..]| && children[1..][k] == d;
    assert children[k + 1] == d;
  }

  // ----- Scanning keeps names distinct, and a second scan finds nothing to do -----

  /** The children CreateAll adds. */
  function News(id: nat, wanted: seq<string>, works: seq<bool>, power: Power): seq<Child>
    requires |works| == |wanted|
    decreases |wanted|
  {
    if wanted == [] then []
    else if works[0] then [NewChild(id, wanted[0], power)] + News(id + 1, wanted[1..], works[1..], power)
    else News(id, wanted[1..], works[1..], power)
  }

  lemma {:induction false} CreateAllAdds(b: Bus, wanted: seq<string>, works: seq<bool>)
    requires |works| == |wanted|
    ensures var b' := CreateAll(b, wanted, works); var news := News(b.nextId, wanted, works, b.power);
            b' == b.(children := b.children + news, references := b.references + |news|, nextId := b.nextId + |news|)
    decreases |wanted|
  {
    if wanted == [] {
      assert b.children + [] == b.children;
    } else {
      var b1 := if works[0] then AddChild(b, wanted[0]) else b;
      CreateAllAdds(b1, wanted[1..], works[1..]);
      var later := News(b1.nextId, wanted[1..], works[1..], b.power);
      if works[0] {
        assert b.children + [NewChild(b.nextId, wanted[0], b.power)] + later
            == b.children + ([NewChild(b.nextId, wanted[0], b.power)] + later);
      }
    }
  }

  lemma DistinctCons(name: string, names: seq<string>)
    requires NoRepeats(names) && name !in names
    ensures NoRepeats([name] + names)
  {
  }

  lemma {:induction false} WantedIsListed(open: seq<Device>)
    requires DistinctDevices(open)
    ensures forall name :: name in Wanted(open) <==> Listed(open, name)
    ensures NoRepeats(Wanted(open))
  {
    if open != [] {
      WantedIsListed(open[1..]);
      assert open == [open[0]] + open[1..];
      if open[0].listed {
        forall name | name in Wanted(open[1..])
          ensures name != open[0].name
        {
          var k :| 0 <= k < |open[1..]| && open[1..][k] == Device(name, true);
          assert open[k + 1] == Device(name, true);
        }
        DistinctCons(open[0].name, Wanted(open[1..]));
      }
    }
  }

  /** New children carry wanted names, each at most once; all of them if every attempt works. */
  lemma {:induction false} NewsNames(id: nat, wanted: seq<string>, works: seq<bool>, power: Power)
    requires |works| == |wanted| && NoRepeats(wanted)
    ensures var news := News(id, wanted, works, power);
            && DistinctNames(news)
            && (forall c | c in news :: c.name in wanted && c.pnp == Present && !c.isDefault)
            && ((forall k | 0 <= k < |works| :: works[k]) ==> forall name | name in wanted :: Taken(news, name))
    decreases |wanted|
  {
    if wanted != [] {
      var rest := News(if works[0] then id + 1 else id, wanted[1..], works[1..], power);
      NewsNames(if works[0] then id + 1 else id, wanted[1..], works[1..], power);
      assert wanted == [wanted[0]] + wanted[1..];
      if works[0] {
        var c := NewChild(id, wanted[0], power);
        assert c in [c] + rest;
        forall name | name in wanted && forall k | 0 <= k < |works| :: works[k]
          ensures Taken([c] + rest, name)
        {
          if name != wanted[0] {
            assert forall k | 0 <= k < |works[1..]| :: works[1..][k];
            assert Taken(rest, name);
            var d :| d in rest && Counts(d) && d.name == name;
            assert d in [c] + rest;
          }
        }
      }
    }
  }

  /** What the first loop leaves: distinct names, every listed name that was taken, and nothing
      that would disappear again. */
  lemma {:induction false} KeptNames(children: seq<Child>, devices: seq<Device>, power: Power)
    requires DistinctNames(children)
    ensures var kept := Sweep(children, DirectoryFate(devices, power)).kept;
            && DistinctNames(kept)
            && (forall c | c in kept && Counts(c) :: Taken(children, c.name))
            && (forall name | Taken(children, name) && Listed(devices, name) :: Taken(kept, name))
            && (forall c | c in kept :: !Disappears(c, devices))
  {
    if children != [] {
      var c, rest, fate := children[0], children[1..], DirectoryFate(devices, power);
      var kept := Sweep(rest, fate).kept;
      KeptNames(rest, devices, power);
      assert children == [c] + rest;
      if fate(c).Stays? {
        TakenCons(fate(c).child, kept);
      }
      TakenCons(c, rest);
      forall d | d in kept && Counts(d) && Counts(c)
        ensures d.name != c.name
      {
        assert Taken(rest, d.name);
        HeadIsNotTaken(children, d.name);
      }
    }
  }

  lemma HeadIsNotTaken(children: seq<Child>, name: string)
    requires DistinctNames(children) && children != [] && Counts(children[0]) && Taken(children[1..], name)
    ensures name != children[0].name
  {
    var e :| e in children[1..] && Counts(e) && e.name == name;
    var k :| 0 <= k < |children[1..]| && children[1..][k] == e;
    assert children[k + 1] == e;
  }

  lemma TakenCons(c: Child, children: seq<Child>)
    ensures forall name :: Taken([c] + children, name) <==> (Counts(c) && c.name == name) || Taken(children, name)
  {
    assert c in [c] + children;
    forall name | Taken(children, name)
      ensures Taken([c] + children, name)
    {
      var d :| d in children && Counts(d) && d.name == name;
      assert d in [c] + children;
    }
  }

  lemma TakenConcat(a: seq<Child>, b: seq<Child>)
    ensures forall name :: Taken(a + b, name) <==> Taken(a, name) || Taken(b, name)
  {
    forall name | Taken(a, name) || Taken(b, name)
      ensures Taken(a + b, name)
    {
      var d :| d in a + b && Counts(d) && d.name == name;
    }
  }

  /** The names of live devices stay distinct, whichever attempts work. */
  lemma ScanKeepsNamesDistinct(b: Bus, devices: seq<Device>, works: seq<bool>)
    requires Enabled(b, Scan(devices, works)) && DistinctDevices(devices) && DistinctNames(b.children)
    ensures DistinctNames(Next(b, Scan(devices, works)).children)
  {
    var b1, wanted := AfterScanLoop(b, devices), ScanWanted(b, devices);
    ScanReconciles(b.children, devices, b.power);
    KeptNames(b.children, devices, b.power);
    WantedIsListed(ScanChildren(b.children, devices, b.power).open);
    CreateAllAdds(b1, wanted, works);
    NewsNames(b1.nextId, wanted, works, b.power);
    var news := News(b1.nextId, wanted, works, b.power);
    forall i, j | 0 <= i < |b1.children| && 0 <= j < |news| && Counts(b1.children[i])
      ensures b1.children[i].name != news[j].name
    {
      assert Taken(b.children, b1.children[i].name);
      assert news[j] in news && news[j].name in wanted;
    }
  }

  lemma {:induction false} NothingToDo(children: seq<Child>, devices: seq<Device>, power: Power)
    requires forall c | c in children :: !Disappears(c, devices)
    ensures Sweep(children, DirectoryFate(devices, power)) == Swept(children, [])
  {
    if children != [] {
      NothingToDo(children[1..], devices, power);
      assert !Disappears(children[0], devices);
      assert [children[0]] + children[1..] == children;
    }
  }

  lemma NoneWanted(open: seq<Device>)
    requires DistinctDevices(open) && forall name :: !Listed(open, name)
    ensures Wanted(open) == []
  {
    var names := Wanted(open);
    assert names != [] ==> names[0] in names;
    WantedIsListed(open);
  }

  /** Scanning the same directory again after every creation worked changes nothing and asks for
      no invalidation. */
  lemma SecondScanIsIdle(b: Bus, devices: seq<Device>, works: seq<bool>)
    requires Enabled(b, Scan(devices, works)) && DistinctDevices(devices) && DistinctNames(b.children)
    requires forall k | 0 <= k < |works| :: works[k]
    ensures var b' := Next(b, Scan(devices, works));
            && Enabled(b', Scan(devices, [])) && Next(b', Scan(devices, [])) == b'
            && !NeedInvalidate(b', devices, [])
  {
    var b1, wanted := AfterScanLoop(b, devices), ScanWanted(b, devices);
    ScanReconciles(b.children, devices, b.power);
    KeptNames(b.children, devices, b.power);
    WantedIsListed(ScanChildren(b.children, devices, b.power).open);
    CreateAllAdds(b1, wanted, works);
    NewsNames(b1.nextId, wanted, works, b.power);
    ScanKeepsNamesDistinct(b, devices, works);
    var b' := Next(b, Scan(devices, works));
    TakenConcat(b1.children, News(b1.nextId, wanted, works, b.power));
    ScanReconciles(b'.children, devices, b'.power);
    NothingToDo(b'.children, devices, b'.power);
    var open := ScanChildren(b'.children, devices, b'.power).open;
    WantedIsListed(open);
    NoneWanted(open);
    assert b'.destroyed + [] == b'.destroyed;
  }
}
