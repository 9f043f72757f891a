// The linked list of loaded libraries, kept in step with the dynamic linker's
// open counts by load_testcase_from_lib and unload_lib.

module LibList {
  import opened Optional

  type Handle = nat

  datatype Entry = Entry(name: string, handle: Handle)

  function CountHandle(list: seq<Entry>, h: Handle): nat {
    if list == [] then 0
    else (if list[0].handle == h then 1 else 0) + CountHandle(list[1..], h)
  }

  /** list without its first entry for handle h. */
  function WithoutFirst(list: seq<Entry>, h: Handle): seq<Entry> {
    if list == [] then []
    else if list[0].handle == h then list[1..]
    else [list[0]] + WithoutFirst(list[1..], h)
  }

  lemma {:induction false} CountZero(list: seq<Entry>, h: Handle)
    requires forall i :: 0 <= i < |list| ==> list[i].handle != h
    ensures CountHandle(list, h) == 0
  {
    if list != [] {
      CountZero(list[1..], h);
    }
  }

  /** Removing at the first index with the handle. */
  lemma {:induction false} WithoutFirstAt(list: seq<Entry>, h: Handle, i: nat)
    requires i < |list| && list[i].handle == h
    requires forall j :: 0 <= j < i ==> list[j].handle != h
    ensures WithoutFirst(list, h) == list[..i] + list[i + 1..]
  {
    if i == 0 {
      assert list[..0] + list[1..] == list[1..];
    } else {
      var rest := list[1..];
      WithoutFirstAt(rest, h, i - 1);
      assert list[..i] + list[i + 1..] == [list[0]] + (rest[..i - 1] + rest[i..]);
    }
  }

  class Node {
    const name: string
    const handle: Handle
    var next: Node?

    constructor (name: string, handle: Handle, next: Node?)
      ensures this.name == name && this.handle == handle && this.next == next
    {
      this.name, this.handle, this.next := name, handle, next;
    }
  }

  ghost function EntriesOf(nodes: seq<Node>): (list: seq<Entry>)
    ensures |list| == |nodes|
    ensures forall i :: 0 <= i < |nodes| ==> list[i] == Entry(nodes[i].name, nodes[i].handle)
  {
    seq(|nodes|, i requires 0 <= i < |nodes| => Entry(nodes[i].name, nodes[i].handle))
  }

  ghost function Nth(nodes: seq<Node>, i: nat): Node? {
    if i < |nodes| then nodes[i] else null
  }

  /** The chain from first runs through the nodes, all different, to null. */
  ghost predicate Chain(first: Node?, nodes: seq<Node>)
    reads nodes
  {
    && first == Nth(nodes, 0)
    && (forall i :: 0 <= i < |nodes| ==> nodes[i].next == Nth(nodes, i + 1))
    && (forall i, j :: 0 <= i < j < |nodes| ==> nodes[i] != nodes[j])
  }

  lemma ChainPush(curr: Node, first: Node?, nodes: seq<Node>)
    requires Chain(first, nodes) && curr !in nodes && curr.next == first
    ensures Chain(curr, [curr] + nodes)
    ensures EntriesOf([curr] + nodes) == [Entry(curr.name, curr.handle)] + EntriesOf(nodes)
  {
    var all := [curr] + nodes;
    forall i | 0 <= i < |all|
      ensures all[i].next == Nth(all, i + 1)
    {
      if i > 0 {
        assert nodes[i - 1].next == Nth(nodes, i);
      }
    }
  }

  lemma ChainPop(first: Node?, nodes: seq<Node>)
    requires Chain(first, nodes) && first != null
    ensures Chain(first.next, nodes[1..])
  {
    var rest := nodes[1..];
    assert nodes[0].next == Nth(nodes, 1);
    forall i | 0 <= i < |rest|
      ensures rest[i].next == Nth(rest, i + 1)
    {
      assert nodes[i + 1].next == Nth(nodes, i + 2);
    }
  }

  // The first node for a handle, and the list without it.
  lemma FirstNode(nodes: seq<Node>, h: Handle) returns (i: nat)
    requires CountHandle(EntriesOf(nodes), h) > 0
    ensures i < |nodes| && nodes[i].handle == h
    ensures forall j :: 0 <= j < i ==> nodes[j].handle != h
    ensures EntriesOf(nodes[..i] + nodes[i + 1..]) == WithoutFirst(EntriesOf(nodes), h)
    ensures forall n :: n in nodes[..i] + nodes[i + 1..] ==> n in nodes
  {
    var list := EntriesOf(nodes);
    i := 0;
    while i < |nodes| && nodes[i].handle != h
      invariant i <= |nodes| && forall j :: 0 <= j < i ==> nodes[j].handle != h
    {
      i := i + 1;
    }
    if i == |nodes| {
      CountZero(list, h);
      assert false;
    }
    WithoutFirstAt(list, h, i);
    EntriesSkip(nodes, i);
  }

  lemma EntriesSkip(nodes: seq<Node>, i: nat)
    requires i < |nodes|
    ensures EntriesOf(nodes[..i] + nodes[i + 1..]) == EntriesOf(nodes)[..i] + EntriesOf(nodes)[i + 1..]
  {
  }

  // The node before i points past it; every other link is in order.
  lemma Bypassed(first: Node, nodes: seq<Node>, i: nat)
    requires 0 < i < |nodes| && first == nodes[0]
    requires forall j, k :: 0 <= j < k < |nodes| ==> nodes[j] != nodes[k]
    requires forall j :: 0 <= j < |nodes| && j != i - 1 ==> nodes[j].next == Nth(nodes, j + 1)
    requires nodes[i - 1].next == Nth(nodes, i + 1)
    ensures Chain(first, nodes[..i] + nodes[i + 1..])
  {
    var rest: seq<Node> := nodes[..i] + nodes[i + 1..];
    forall j | 0 <= j < |rest|
      ensures rest[j].next == Nth(rest, j + 1)
    {
      if j < i {
        assert rest[j] == nodes[j];
      } else {
        assert rest[j] == nodes[j + 1] && nodes[j + 1].next == Nth(nodes, j + 2);
      }
    }
  }

  /** unload_lib's surgery: the first node, or the search for the node before the
      one wanted.  The search never runs off the end. */
  method Unlink(first: Node, handle: Handle, ghost nodes: seq<Node>, ghost i: nat) returns (head: Node?)
    requires Chain(first, nodes)
    requires i < |nodes| && nodes[i].handle == handle
    requires forall j :: 0 <= j < i ==> nodes[j].handle != handle
    modifies nodes
    ensures Chain(head, nodes[..i] + nodes[i + 1..])
  {
    if first.handle == handle {
      assert nodes[..i] + nodes[i + 1..] == nodes[1..];
      ChainPop(first, nodes);
      return first.next;
    }
    var temp := first;
    ghost var k := 0;
    while temp.next != null && temp.next.handle != handle
      invariant 0 <= k < i && temp == nodes[k] && Chain(first, nodes)
      decreases |nodes| - k
    {
      temp := temp.next;
      k := k + 1;
    }
    assert nodes[k].next == Nth(nodes, k + 1);
    if temp.next == null {
      assert false;
    }
    assert temp.next == nodes[i] && k + 1 == i;
    assert nodes[i].next == Nth(nodes, i + 1);
    temp.next := temp.next.next;
    Bypassed(first, nodes, i);
    return first;
  }

  // ------------------------------------------------------------- open counts

  type Counts = map<Handle, nat>

  function Opens(m: Counts, h: Handle): nat { if h in m then m[h] else 0 }

  function Raised(m: Counts, h: Handle): Counts { m[h := Opens(m, h) + 1] }

  function Lowered(m: Counts, h: Handle): Counts
    requires Opens(m, h) > 0
  {
    m[h := m[h] - 1]
  }

  /** Every open count is the handle's number of entries. */
  ghost predicate Counted(m: Counts, list: seq<Entry>) {
    forall h: Handle :: Opens(m, h) == CountHandle(list, h)
  }

  lemma LoadCounted(m: Counts, list: seq<Entry>, e: Entry)
    requires Counted(m, list)
    ensures Counted(Raised(m, e.handle), [e] + list)
    ensures Counted(Lowered(Raised(m, e.handle), e.handle), list)
  {
    assert ([e] + list)[1..] == list;
  }

  lemma UnloadCounted(m: Counts, list: seq<Entry>, h: Handle)
    requires Counted(m, list) && Opens(m, h) > 0
    ensures Counted(Lowered(Lowered(Raised(m, h), h), h), WithoutFirst(list, h))
  {
    RemovedCounts(list, h);
  }

  /** tb_test_lib_t *libs and the dynamic linker behind it: what a path resolves
      to, which libraries define lib_group, and how often each is open. */
  class Registry {
    const files: map<string, Handle>
    const withGroups: set<Handle>
    var libs: Node?
    var opens: Counts
    ghost var spine: seq<Node>
    ghost var list: seq<Entry>

    /** The list is acyclic, the open counts are its numbers of nodes, and only
        libraries that define lib_group are in it. */
    ghost predicate Valid()
      reads this, spine
    {
      && Chain(libs, spine)
      && list == EntriesOf(spine)
      && Counted(opens, list)
      && forall n :: n in spine ==> n.handle in withGroups
    }

    constructor (files: map<string, Handle>, withGroups: set<Handle>)
      ensures Valid() && list == []
      ensures this.files == files && this.withGroups == withGroups
    {
      this.files, this.withGroups := files, withGroups;
      libs, opens, spine, list := null, map[], [], [];
    }

    /** dlopen(lib, RTLD_NOW | RTLD_GLOBAL) */
    method DlOpen(lib: string) returns (handle: Option<Handle>)
      modifies this`opens
      ensures handle == if lib in files then Some(files[lib]) else None
      ensures opens == if handle.Some? then Raised(old(opens), handle.value) else old(opens)
    {
      if lib !in files {
        return None;
      }
      opens := Raised(opens, files[lib]);
      return Some(files[lib]);
    }

    /** dlopen(lib, RTLD_NOW | RTLD_NOLOAD) */
    method DlOpenLoaded(lib: string) returns (handle: Option<Handle>)
      modifies this`opens
      ensures handle == if lib in files && Opens(old(opens), files[lib]) > 0 then Some(files[lib]) else None
      ensures opens == if handle.Some? then Raised(old(opens), handle.value) else old(opens)
    {
      if lib !in files || Opens(opens, files[lib]) == 0 {
        return None;
      }
      opens := Raised(opens, files[lib]);
      return Some(files[lib]);
    }

    /** dlclose, of an open handle only */
    method DlClose(handle: Handle)
      requires Opens(opens, handle) > 0
      modifies this`opens
      ensures opens == Lowered(old(opens), handle)
    {
      opens := opens[handle := opens[handle] - 1];
    }

    /** Closing what was opened for the lookup, then what the load had opened. */
    method DlCloseBoth(handle: Handle)
      requires Opens(opens, handle) > 1
      modifies this`opens
      ensures opens == Lowered(Lowered(old(opens), handle), handle)
    {
      DlClose(handle);
      DlClose(handle);
    }

    /** The library part of load_testcase_from_lib: a library that opens and has
        lib_group is prepended; a failed load leaves list and counts as they were.
        The list follows Perform, the open counts follow the list (Valid). */
    method Load(lib: string) returns (kept: bool)
      requires Valid()
      modifies this`libs, this`opens, this`spine, this`list
      ensures Valid() && forall n :: n in spine && n !in old(spine) ==> fresh(n)
      ensures kept <==> lib in files && files[lib] in withGroups
      ensures list == Perform(Host(files, withGroups), old(list), LoadLib(lib))
    {
      var handle := DlOpen(lib);
      if handle.None? {
        return false;
      }
      LoadCounted(old(opens), list, Entry(lib, handle.value));
      var curr := new Node(lib, handle.value, libs);
      libs := curr;
      if handle.value !in withGroups {
        DlClose(handle.value);
        libs := curr.next;
        return false;
      }
      ChainPush(curr, curr.next, spine);
      spine, list := [curr] + spine, [Entry(lib, handle.value)] + list;
      return true;
    }

    method Remove(handle: Handle)
      requires Chain(libs, spine) && list == EntriesOf(spine) && CountHandle(list, handle) > 0
      modifies this`libs, this`spine, this`list, spine
      ensures Chain(libs, spine) && list == EntriesOf(spine) && list == WithoutFirst(old(list), handle)
      ensures forall n :: n in spine ==> n in old(spine)
    {
      ghost var i := FirstNode(spine, handle);
      ghost var rest := spine[..i] + spine[i + 1..];
      libs := Unlink(libs, handle, spine, i);
      spine, list := rest, WithoutFirst(list, handle);
    }

    /** The library part of unload_lib.  The head is never null and the library
        is always found in the list: neither failure branch can be reached. */
    method Unload(lib: string) returns (done: bool)
      requires Valid()
      modifies this`libs, this`opens, this`spine, this`list, spine
      ensures Valid() && forall n :: n in spine ==> n in old(spine)
      ensures done <==> lib in files && CountHandle(old(list), files[lib]) > 0
      ensures list == Perform(Host(files, withGroups), old(list), UnloadLib(lib))
    {
      var found := DlOpenLoaded(lib);
      if found.None? {
        return false;
      }
      var handle := found.value;
      UnloadCounted(old(opens), list, handle);
      if handle !in withGroups {
        ghost var i := FirstNode(spine, handle);
        assert false;
      }
      Remove(handle);
      DlCloseBoth(handle);
      return true;
    }

    /** list_libs: the names, last loaded first. */
    method ListLibs() returns (names: seq<string>)
      requires Valid()
      ensures |names| == |list| && forall i :: 0 <= i < |list| ==> names[i] == list[i].name
    {
      names := [];
      var curr := libs;
      while curr != null
        invariant |names| <= |spine| && curr == Nth(spine, |names|)
        invariant forall i :: 0 <= i < |names| ==> names[i] == list[i].name
        decreases |spine| - |names|
      {
        ghost var i := |names|;
        assert curr == spine[i] && list[i].name == curr.name && curr.next == Nth(spine, i + 1);
        names := names + [curr.name];
        curr := curr.next;
      }
    }
  }

  // ------------------------------------------------- over sequences of commands

  datatype Command = LoadLib(name: string) | UnloadLib(name: string)

  datatype Host = Host(files: map<string, Handle>, withGroups: set<Handle>)

  /** What Load and Unload do to the list. */
  function Perform(host: Host, list: seq<Entry>, c: Command): seq<Entry> {
    match c
    case LoadLib(name) =>
      if name in host.files && host.files[name] in host.withGroups
      then [Entry(name, host.files[name])] + list
      else list
    case UnloadLib(name) =>
      if name in host.files && CountHandle(list, host.files[name]) > 0
      then WithoutFirst(list, host.files[name])
      else list
  }

  function PerformAll(host: Host, list: seq<Entry>, cs: seq<Command>): seq<Entry>
    decreases |cs|
  {
    if cs == [] then list else PerformAll(host, Perform(host, list, cs[0]), cs[1..])
  }

  /** The history, as one list or another stays loaded: of each handle's loads,
      unload takes back the latest one still there, so a handle's nodes follow a
      counter that loads raise and unloads lower, never below zero. */
  function Level(host: Host, h: Handle, level: nat, cs: seq<Command>): nat
    decreases |cs|
  {
    if cs == [] then level
    else
      var c := cs[0];
      var here := c.name in host.files && host.files[c.name] == h;
      var next :=
        if !here then level
        else if c.UnloadLib? then (if level > 0 then level - 1 else 0)
        else if h in host.withGroups then level + 1 else level;
      Level(host, h, next, cs[1..])
  }

  lemma {:induction false} CountsFollowLevels(host: Host, list: seq<Entry>, cs: seq<Command>, h: Handle)
    ensures CountHandle(PerformAll(host, list, cs), h) == Level(host, h, CountHandle(list, h), cs)
    decreases |cs|
  {
    if cs != [] {
      var c := cs[0];
      if c.UnloadLib? && c.name in host.files && CountHandle(list, host.files[c.name]) > 0 {
        RemovedCounts(list, host.files[c.name]);
      }
      CountsFollowLevels(host, Perform(host, list, c), cs[1..], h);
    }
  }

  lemma {:induction false} RemovedCounts(list: seq<Entry>, h: Handle)
    requires CountHandle(list, h) > 0
    ensures forall k :: CountHandle(WithoutFirst(list, h), k) == CountHandle(list, k) - (if k == h then 1 else 0)
  {
    if list[0].handle != h {
      RemovedCounts(list[1..], h);
    }
  }

  /** Commands on other handles in between do not matter to a load and its
      unload: what is left is what those commands alone would have left. */
  lemma {:induction false} UnloadTakesBackItsLoad(host: Host, list: seq<Entry>, name: string, between: seq<Command>)
    requires name in host.files && host.files[name] in host.withGroups
    requires forall c :: c in between && c.name in host.files ==> host.files[c.name] != host.files[name]
    ensures PerformAll(host, list, [LoadLib(name)] + between + [UnloadLib(name)])
            == PerformAll(host, list, between)
  {
    var e := Entry(name, host.files[name]);
    var above, below := Around(host, e, list, between);
    assert [e] + list == Perform(host, list, LoadLib(name));
    SkipsTo(above, e, below);
    PerformThree(host, list, LoadLib(name), between, UnloadLib(name));
  }

  lemma PerformThree(host: Host, list: seq<Entry>, c: Command, between: seq<Command>, d: Command)
    ensures PerformAll(host, list, [c] + between + [d])
            == Perform(host, PerformAll(host, Perform(host, list, c), between), d)
  {
    PerformAllConcat(host, list, [c] + between, [d]);
    PerformAllConcat(host, list, [c], between);
    PerformOne(host, list, c);
    PerformOne(host, PerformAll(host, Perform(host, list, c), between), d);
  }

  lemma Around(host: Host, e: Entry, list: seq<Entry>, cs: seq<Command>) returns (above: seq<Entry>, below: seq<Entry>)
    requires forall c :: c in cs && c.name in host.files ==> host.files[c.name] != e.handle
    ensures PerformAll(host, [e] + list, cs) == above + [e] + below
    ensures PerformAll(host, list, cs) == above + below
    ensures CountHandle(above, e.handle) == 0
  {
    Sandwich(host, [], e, list, cs);
    assert [] + [e] + list == [e] + list && [] + list == list;
    var split := Split(host, [], list, cs);
    above, below := split.0, split.1;
  }

  lemma PerformOne(host: Host, list: seq<Entry>, c: Command)
    ensures PerformAll(host, list, [c]) == Perform(host, list, c)
  {
    assert [c][1..] == [];
  }

  // Where a command, and where commands, leave what stands above and below an entry
  // they do not touch.
  ghost function PerformAround(host: Host, above: seq<Entry>, below: seq<Entry>, c: Command)
    : (seq<Entry>, seq<Entry>)
  {
    if c.UnloadLib? && c.name in host.files && CountHandle(above, host.files[c.name]) == 0
    then (above, Perform(host, below, c))
    else (Perform(host, above, c), below)
  }

  ghost function Split(host: Host, above: seq<Entry>, below: seq<Entry>, cs: seq<Command>): (seq<Entry>, seq<Entry>)
    decreases |cs|
  {
    if cs == [] then (above, below)
    else
      var next := PerformAround(host, above, below, cs[0]);
      Split(host, next.0, next.1, cs[1..])
  }

  lemma PassesAround(host: Host, above: seq<Entry>, e: Entry, below: seq<Entry>, c: Command)
    requires c.name in host.files ==> host.files[c.name] != e.handle
    ensures var (above', below') := PerformAround(host, above, below, c);
            && Perform(host, above + [e] + below, c) == above' + [e] + below'
            && Perform(host, above + below, c) == above' + below'
  {
    OnePerform(host, above, [e], below, c);
    OnePerform(host, above, [], below, c);
    NoMiddle(above, below);
    var next := PerformAround(host, above, below, c);
    NoMiddle(next.0, next.1);
  }

  lemma NoMiddle(a: seq<Entry>, b: seq<Entry>)
    ensures a + [] + b == a + b
  {
  }

  lemma StaysUncounted(host: Host, above: seq<Entry>, below: seq<Entry>, c: Command, h: Handle)
    requires CountHandle(above, h) == 0 && (c.name in host.files ==> host.files[c.name] != h)
    ensures CountHandle(PerformAround(host, above, below, c).0, h) == 0
  {
    if c.UnloadLib? && c.name in host.files && CountHandle(above, host.files[c.name]) > 0 {
      RemovedCounts(above, host.files[c.name]);
    }
  }

  lemma {:induction false} Sandwich(host: Host, above: seq<Entry>, e: Entry, below: seq<Entry>, cs: seq<Command>)
    requires forall c :: c in cs && c.name in host.files ==> host.files[c.name] != e.handle
    requires CountHandle(above, e.handle) == 0
    ensures var (a, b) := Split(host, above, below, cs);
            && PerformAll(host, above + [e] + below, cs) == a + [e] + b
            && PerformAll(host, above + below, cs) == a + b
            && CountHandle(a, e.handle) == 0
    decreases |cs|
  {
    if cs != [] {
      assert cs[0] in cs;
      PassesAround(host, above, e, below, cs[0]);
      StaysUncounted(host, above, below, cs[0], e.handle);
      var next := PerformAround(host, above, below, cs[0]);
      Sandwich(host, next.0, e, next.1, cs[1..]);
    }
  }

  lemma OnePerform(host: Host, above: seq<Entry>, mid: seq<Entry>, below: seq<Entry>, c: Command)
    requires c.UnloadLib? && c.name in host.files ==> CountHandle(mid, host.files[c.name]) == 0
    ensures c.LoadLib? ==> Perform(host, above + mid + below, c) == Perform(host, above, c) + mid + below
    ensures c.UnloadLib? ==>
              Perform(host, above + mid + below, c) ==
              if c.name in host.files && CountHandle(above, host.files[c.name]) == 0
              then above + mid + Perform(host, below, c)
              else Perform(host, above, c) + mid + below
  {
    match c
    case LoadLib(name) =>
      if name in host.files {
        var e := Entry(name, host.files[name]);
        assert [e] + (above + mid + below) == ([e] + above) + mid + below;
      }
    case UnloadLib(name) =>
      if name in host.files {
        var h := host.files[name];
        RemoveConcat(above + mid, below, h);
        RemoveConcat(above, mid, h);
      }
  }

  lemma {:induction false} RemoveConcat(a: seq<Entry>, b: seq<Entry>, h: Handle)
    ensures CountHandle(a + b, h) == CountHandle(a, h) + CountHandle(b, h)
    ensures WithoutFirst(a + b, h) ==
            if CountHandle(a, h) > 0 then WithoutFirst(a, h) + b else a + WithoutFirst(b, h)
  {
    if a == [] {
      assert a + b == b;
    } else {
      assert (a + b)[1..] == a[1..] + b;
      RemoveConcat(a[1..], b, h);
    }
  }

  lemma LastOne(above: seq<Entry>, e: Entry)
    requires CountHandle(above, e.handle) == 0
    ensures CountHandle(above + [e], e.handle) == 1 && WithoutFirst(above + [e], e.handle) == above
  {
    RemoveConcat(above, [e], e.handle);
    assert WithoutFirst([e], e.handle) == [];
    assert above + [] == above;
  }

  lemma SkipsTo(above: seq<Entry>, e: Entry, below: seq<Entry>)
    requires CountHandle(above, e.handle) == 0
    ensures CountHandle(above + [e] + below, e.handle) > 0
    ensures WithoutFirst(above + [e] + below, e.handle) == above + below
  {
    LastOne(above, e);
    RemoveConcat(above + [e], below, e.handle);
  }

  lemma {:induction false} PerformAllConcat(host: Host, list: seq<Entry>, cs: seq<Command>, ds: seq<Command>)
    ensures PerformAll(host, list, cs + ds) == PerformAll(host, PerformAll(host, list, cs), ds)
    decreases |cs|
  {
    if cs == [] {
      assert cs + ds == ds;
    } else {
      assert (cs + ds)[1..] == cs[1..] + ds;
      PerformAllConcat(host, Perform(host, list, cs[0]), cs[1..], ds);
    }
  }
}
