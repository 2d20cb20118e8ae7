/** Circular lists linked through the entries themselves: the monitor service's own primitives and
    the kernel's, and the loops that walk, splice and drain such lists. */
module IntrusiveList {
  import opened Sequences

  class Entry {
    const handle: int
    var flink: Entry?
    var blink: Entry?

    constructor (handle: int)
      ensures this.handle == handle
    {
      this.handle, flink, blink := handle, null, null;
    }
  }

  /** The ring read from its head: place 0 and place |items| + 1 are both the head. */
  function Nth(head: Entry, items: seq<Entry>, k: nat): Entry
    requires k <= |items| + 1
  {
    if k == 0 || k == |items| + 1 then head else items[k - 1]
  }

  /** `head` heads a well-formed list of exactly these entries in this order. */
  ghost predicate IsList(head: Entry, items: seq<Entry>)
    reads head, items
  {
    && NoRepeats([head] + items)
    && forall k | 0 <= k <= |items| :: Joined(Nth(head, items, k), Nth(head, items, k + 1))
  }

  ghost predicate Joined(a: Entry, b: Entry)
    reads a, b
  {
    a.flink == b && b.blink == a
  }

  lemma Ends(head: Entry, items: seq<Entry>)
    requires IsList(head, items)
    ensures head.flink == Nth(head, items, 1) && Nth(head, items, 1).blink == head
    ensures head.blink == Nth(head, items, |items|) && Nth(head, items, |items|).flink == head
  {
    assert Joined(Nth(head, items, 0), Nth(head, items, 1));
    assert Joined(Nth(head, items, |items|), Nth(head, items, |items| + 1));
  }

  /** Two different places but the last are different entries. */
  lemma Apart(head: Entry, items: seq<Entry>, j: nat, k: nat)
    requires NoRepeats([head] + items) && j < k <= |items|
    ensures Nth(head, items, j) != Nth(head, items, k)
  {
    assert Nth(head, items, j) == ([head] + items)[j] && Nth(head, items, k) == ([head] + items)[k];
  }

  lemma HeadApart(head: Entry, items: seq<Entry>)
    requires NoRepeats([head] + items)
    ensures head !in items
  {
    assert forall k | 0 <= k < |items| :: items[k] == ([head] + items)[k + 1];
    assert ([head] + items)[0] == head;
  }

  /** The same ring read from its first entry. */
  lemma Rotate(head: Entry, items: seq<Entry>)
    requires IsList(head, items) && items != []
    ensures IsList(items[0], items[1..] + [head])
  {
    var first, rest := items[0], items[1..] + [head];
    assert forall k | 0 <= k < |[first] + rest| ::
        ([first] + rest)[k] == if k < |items| then ([head] + items)[k + 1] else ([head] + items)[0];
    forall k | 0 <= k <= |rest|
      ensures Joined(Nth(first, rest, k), Nth(first, rest, k + 1))
    {
      var j := if k < |items| then k + 1 else 0;
      assert Joined(Nth(head, items, j), Nth(head, items, j + 1));
    }
  }

  /** And from any entry: what follows it, the head, what goes before it. */
  lemma {:induction false} RotateTo(head: Entry, items: seq<Entry>, i: nat)
    requires IsList(head, items) && i < |items|
    ensures IsList(items[i], items[i + 1..] + [head] + items[..i])
    decreases i
  {
    Rotate(head, items);
    if i == 0 {
      assert items[1..] + [head] + items[..0] == items[1..] + [head];
    } else {
      RotateTo(items[0], items[1..] + [head], i - 1);
      assert (items[1..] + [head])[i..] + [items[0]] + (items[1..] + [head])[..i - 1]
          == items[i + 1..] + [head] + items[..i];
    }
  }

  // ----- Primitives -----

  /** __InitializeListHead. */
  method InitializeListHead(e: Entry)
    modifies e
    ensures IsList(e, [])
  {
    e.flink := e;
    e.blink := e;
  }

  /** __InsertTailList. */
  method InsertTailList(head: Entry, e: Entry, ghost items: seq<Entry>)
    requires IsList(head, items) && e != head && e !in items
    modifies head, e, items
    ensures IsList(head, items + [e])
  {
    ghost var last := Nth(head, items, |items|);
    assert Joined(last, Nth(head, items, |items| + 1));
    assert forall k | 0 <= k < |items| :: Joined(Nth(head, items, k), Nth(head, items, k + 1));
    assert forall k | 0 <= k < |items| :: Nth(head, items, k) == ([head] + items)[k];
    assert last == ([head] + items)[|items|];
    e.blink := head.blink;
    e.flink := head;
    head.blink.flink := e;
    head.blink := e;
    assert [head] + (items + [e]) == [head] + items + [e];
    forall k | 0 <= k <= |items| + 1
      ensures Joined(Nth(head, items + [e], k), Nth(head, items + [e], k + 1))
    {
      if k < |items| {
        assert Nth(head, items + [e], k) == Nth(head, items, k);
        assert Nth(head, items + [e], k + 1) == Nth(head, items, k + 1);
      }
    }
  }

  /** The kernel's RemoveEntryList: the entry keeps its own links. */
  method RemoveEntryList(e: Entry, ghost others: seq<Entry>)
    requires IsList(e, others)
    modifies e, others
    ensures others == [] ==> IsList(e, [])
    ensures others != [] ==> IsList(others[0], others[1..]) && unchanged(e)
  {
    Ends(e, others);
    SkipHead(e, others);
    var flink, blink := e.flink, e.blink;
    flink.blink := blink;
    blink.flink := flink;
    if others != [] {
      ghost var first, rest := others[0], others[1..];
      forall k | 0 <= k <= |rest|
        ensures Joined(Nth(first, rest, k), Nth(first, rest, k + 1))
      {
        if k < |rest| {
          Apart(first, rest, k, |rest|);
          Apart(first, rest, 0, k + 1);
        }
      }
    }
  }

  /** All the links but those of the head. */
  lemma SkipHead(e: Entry, others: seq<Entry>)
    requires IsList(e, others)
    ensures others != [] ==>
              var first, rest := others[0], others[1..];
              && NoRepeats([first] + rest) && e !in others && Nth(first, rest, |rest|) == Nth(e, others, |others|)
              && forall k | 0 <= k < |rest| :: Joined(Nth(first, rest, k), Nth(first, rest, k + 1))
  {
    if others != [] {
      var first, rest := others[0], others[1..];
      assert [first] + rest == others;
      assert forall k | 0 <= k < |others| :: others[k] == ([e] + others)[k + 1];
      assert ([e] + others)[0] == e;
      forall k | 0 <= k < |rest|
        ensures Joined(Nth(first, rest, k), Nth(first, rest, k + 1))
      {
        assert Joined(Nth(e, others, k + 1), Nth(e, others, k + 2));
      }
    }
  }

  /** RemoveEntryList seen from the head. */
  method RemoveAt(head: Entry, ghost i: nat, e: Entry, ghost items: seq<Entry>)
    requires IsList(head, items) && i < |items| && e == items[i]
    modifies head, items
    ensures IsList(head, items[..i] + items[i + 1..])
  {
    ghost var others := items[i + 1..] + [head] + items[..i];
    RotateTo(head, items, i);
    RemoveEntryList(e, others);
    if i == |items| - 1 {
      assert others[1..] == items[..i] + items[i + 1..];
    } else {
      ghost var h := |items| - i - 2;
      assert others[1..][h] == head;
      RotateTo(others[0], others[1..], h);
      assert others[1..][h + 1..] + [others[0]] + others[1..][..h] == items[..i] + items[i + 1..];
    }
  }

  /** The kernel's AppendTailList: `first` is on a ring without a head. */
  method AppendTailList(head: Entry, first: Entry, ghost items: seq<Entry>, ghost more: seq<Entry>)
    requires IsList(head, items) && IsList(first, more) && NoRepeats([head] + items + ([first] + more))
    modifies head, items, first, more
    ensures IsList(head, items + ([first] + more))
  {
    Ends(head, items);
    Ends(first, more);
    ghost var all := items + ([first] + more);
    assert [head] + all == [head] + items + ([first] + more);
    forall k | 0 <= k < |all| && k != |items|
      ensures Joined(Nth(head, all, k), Nth(head, all, k + 1))
    {
      if k < |items| {
        assert Joined(Nth(head, items, k), Nth(head, items, k + 1));
      } else {
        assert Joined(Nth(first, more, k - |items| - 1), Nth(first, more, k - |items|));
      }
    }
    assert Nth(head, all, |items|) == Nth(head, items, |items|) && Nth(head, all, |items| + 1) == first;
    assert Nth(head, all, |all|) == Nth(first, more, |more|);
    var end := head.blink;
    head.blink.flink := first;
    head.blink := first.blink;
    first.blink.flink := head;
    first.blink := end;
    forall k | 0 <= k <= |all|
      ensures Joined(Nth(head, all, k), Nth(head, all, k + 1))
    {
      if k < |all| && k != |items| {
        if k < |items| {
          Apart(head, all, k, |items|);
        } else {
          Apart(head, all, |items|, k);
        }
        Apart(head, all, k, |all|);
        if k + 1 < |items| + 1 {
          Apart(head, all, k + 1, |items| + 1);
        } else {
          Apart(head, all, |items| + 1, k + 1);
        }
        Apart(head, all, 0, k + 1);
      }
    }
  }

  /** The way from the end of a ring to empty: the test of every drain loop. */
  lemma EmptyIff(head: Entry, items: seq<Entry>)
    requires IsList(head, items)
    ensures head.flink == head <==> items == []
    ensures items != [] ==> head.flink == items[0]
  {
    Ends(head, items);
    if items != [] {
      Apart(head, items, 0, 1);
    }
  }

  function Handles(items: seq<Entry>): (handles: seq<int>)
    ensures |handles| == |items| && forall k | 0 <= k < |items| :: handles[k] == items[k].handle
  {
    seq(|items|, k requires 0 <= k < |items| => items[k].handle)
  }

  function Without(items: seq<Entry>, i: nat): seq<Entry>
    requires i < |items|
  {
    items[..i] + items[i + 1..]
  }

  /** First entry with this handle, or the length. */
  function Find(items: seq<Entry>, handle: int): (i: nat)
    ensures i <= |items| && (i < |items| ==> items[i].handle == handle)
    ensures forall k | 0 <= k < i :: items[k].handle != handle
  {
    if items == [] || items[0].handle == handle then 0 else 1 + Find(items[1..], handle)
  }

  lemma {:induction false} FindIs(items: seq<Entry>, handle: int, i: nat)
    requires i <= |items| && (i < |items| ==> items[i].handle == handle)
    requires forall k | 0 <= k < i :: items[k].handle != handle
    ensures Find(items, handle) == i
  {
    if i > 0 {
      assert items[0].handle != handle;
      FindIs(items[1..], handle, i - 1);
    }
  }

  lemma GoneFrom(head: Entry, items: seq<Entry>, i: nat)
    requires NoRepeats([head] + items) && i < |items|
    ensures items[i] != head && items[i] !in Without(items, i)
  {
    HeadApart(head, items);
    assert forall k | 0 <= k < |items| :: items[k] == ([head] + items)[k + 1];
  }

  // ----- The monitor service -----

  /** A counted list: the monitor's consoles, or a console's connections. */
  class Counted {
    const head: Entry
    var listCount: int
    ghost var items: seq<Entry>
    ghost var destroyed: seq<int>

    constructor ()
      ensures Valid() && items == [] && destroyed == []
      ensures fresh(head)
    {
      head := new Entry(0);
      listCount, items, destroyed := 0, [], [];
      new;
      InitializeListHead(head);
    }

    ghost predicate Valid()
      reads this, head, items
    {
      IsList(head, items) && listCount == |items|
    }

    /** MonitorAdd, given the console. */
    method Add(e: Entry)
      requires Valid() && e != head && e !in items
      modifies this`listCount, this`items, head, e, items
      ensures Valid() && items == old(items) + [e]
    {
      InsertTailList(head, e, items);
      items := items + [e];
      listCount := listCount + 1;
    }

    /** The search of MonitorRemove and of __ConsoleFindHandle. */
    method Search(handle: int) returns (e: Entry?)
      requires Valid()
      ensures var i := Find(items, handle); e == if i < |items| then items[i] else null
    {
      Ends(head, items);
      var entry := head.flink;
      ghost var i := 0;
      while entry != head
        invariant 0 <= i <= |items| && entry == Nth(head, items, i + 1)
        invariant forall k | 0 <= k < i :: items[k].handle != handle
        decreases |items| - i
      {
        if entry.handle == handle {
          FindIs(items, handle, i);
          return entry;
        }
        assert Joined(Nth(head, items, i + 1), Nth(head, items, i + 2));
        entry := entry.flink;
        i := i + 1;
      }
      if i < |items| {
        Apart(head, items, 0, i + 1);
      }
      FindIs(items, handle, |items|);
      e := null;
    }

    /** MonitorRemove. */
    method Remove(handle: int) returns (found: bool)
      requires Valid()
      modifies this`listCount, this`items, this`destroyed, head, items
      ensures Valid()
      ensures var i := Find(old(items), handle);
              && found == (i < |old(items)|)
              && items == (if found then Without(old(items), i) else old(items))
              && destroyed == old(destroyed) + if found then [handle] else []
    {
      var e := Search(handle);
      if e == null {
        return false;
      }
      Take(e, Find(items, handle));
      found := true;
    }

    /** The monitor's __RemoveEntryList, which links the entry to itself, the count, and the
        entry's destruction. */
    method Take(e: Entry, ghost i: nat)
      requires Valid() && i < |items| && items[i] == e
      modifies this`listCount, this`items, this`destroyed, head, items
      ensures Valid() && items == Without(old(items), i) && destroyed == old(destroyed) + [e.handle]
      ensures IsList(e, [])
    {
      GoneFrom(head, items, i);
      RemoveAt(head, i, e, items);
      InitializeListHead(e);
      items := Without(items, i);
      listCount := listCount - 1;
      destroyed := destroyed + [e.handle];
    }

    /** MonitorRemoveAll: every console is destroyed once, in order, and the list is empty. */
    method RemoveAll()
      requires Valid()
      modifies this`listCount, this`items, this`destroyed, head, items
      ensures Valid() && items == [] && listCount == 0
      ensures destroyed == old(destroyed) + Handles(old(items))
    {
      ghost var all, before := items, destroyed;
      ghost var n: nat := 0;
      EmptyIff(head, items);
      while head.flink != head
        invariant n <= |all| && items == all[n..] && Valid()
        invariant head.flink == head <==> items == []
        invariant destroyed == before + Handles(all[..n])
        decreases |all| - n
      {
        EmptyIff(head, items);
        var e := head.flink;
        TakeFirst(all, n);
        Take(e, 0);
        n := n + 1;
        EmptyIff(head, items);
      }
      assert all[..n] == all;
    }

    /** ConsoleWaitForPipes: the array has room for exactly the connections' threads and the
        server's. */
    method WaitForPipes(serverThread: int) returns (events: array<int>)
      requires Valid()
      ensures fresh(events) && events[..] == Handles(items) + [serverThread]
    {
      var count := listCount + 1;
      events := new int[count];
      var index := 0;
      Ends(head, items);
      var entry := head.flink;
      while entry != head
        invariant 0 <= index <= |items| && entry == Nth(head, items, index + 1)
        invariant forall k | 0 <= k < index :: events[k] == items[k].handle
        decreases |items| - index
      {
        assert Joined(Nth(head, items, index + 1), Nth(head, items, index + 2));
        events[index] := entry.handle;
        entry := entry.flink;
        index := index + 1;
      }
      if index < |items| {
        Apart(head, items, 0, index + 1);
      }
      events[count - 1] := serverThread;
    }
  }

  lemma TakeFirst(all: seq<Entry>, n: nat)
    requires n < |all|
    ensures Without(all[n..], 0) == all[n + 1..] && Handles(all[..n + 1]) == Handles(all[..n]) + [all[n].handle]
  {
  }

  // ----- The kernel's console -----

  class Console {
    const head: Entry
    ghost var items: seq<Entry>
    ghost var destroyed: seq<int>

    constructor ()
      ensures IsList(head, items) && items == [] && destroyed == []
    {
      head := new Entry(0);
      items, destroyed := [], [];
      new;
      InitializeListHead(head);
    }

    /** ConsoleD0ToD3 up to the end of the locked section: the handles move to a list of their own,
        in order, and the console's is empty. */
    method Splice(list: Entry)
      requires IsList(head, items) && IsList(list, []) && list != head && list !in items
      modifies this`items, head, list, items
      ensures IsList(head, []) && items == []
      ensures IsList(list, old(items))
    {
      EmptyIff(head, items);
      HeadApart(head, items);
      var first := head.flink;
      if head.flink != head {
        RemoveEntryList(head, items);
        InitializeListHead(head);
        assert IsList(first, items[1..]);
        assert [first] + items[1..] == items && [list] + [] + items == [list] + items;
        AppendTailList(list, first, [], items[1..]);
        assert [] + items == items;
      }
      items := [];
    }

    /** ConsoleD0ToD3. */
    method D0ToD3()
      requires IsList(head, items)
      modifies this, head, items
      ensures IsList(head, items) && items == [] && destroyed == old(destroyed) + Handles(old(items))
    {
      ghost var all := items;
      HeadApart(head, items);
      var list := new Entry(0);
      InitializeListHead(list);
      Splice(list);
      Drain(list, all);
    }

    /** Its second loop. */
    method Drain(list: Entry, ghost all: seq<Entry>)
      requires IsList(list, all) && list != head && head !in all
      modifies this`destroyed, list, all
      ensures IsList(list, []) && destroyed == old(destroyed) + Handles(all)
    {
      ghost var before, n: nat := destroyed, 0;
      EmptyIff(list, all);
      while list.flink != list
        invariant n <= |all| && IsList(list, all[n..])
        invariant list.flink == list <==> all[n..] == []
        invariant destroyed == before + Handles(all[..n])
        decreases |all| - n
      {
        EmptyIff(list, all[n..]);
        var e := list.flink;
        TakeFirst(all, n);
        assert all[n..][..0] + all[n..][1..] == Without(all[n..], 0);
        RemoveAt(list, 0, e, all[n..]);
        destroyed := destroyed + [e.handle];
        n := n + 1;
        EmptyIff(list, all[n..]);
      }
      assert all[n..] == [] && all[..n] == all;
    }
  }
}
